/** The recovery engine's per-transaction logic: the retry cap, the decision
    table, the recovery commit/rollback, exception containment with
    throttled logging, and the recovery of one page. */
module Recovery {
  import opened Wrappers
  import opened Errors
  import opened Status
  import opened Context
  import opened Participants
  import opened Transactions
  import opened Repository
  import opened Effects
  import opened LogThrottle

  /** What recovery learns about a branch's root: the repository has no root
      domain, the root is not stored, or it is stored with a status. */
  datatype RootView = NoRootDomain | RootAbsent | RootFound(status: TransactionStatus)

  /** The world recovery acts on: the participants' and the repository's
      answers, whether the repository has a root domain, and its root lookup. */
  datatype RecoveryEnv = RecoveryEnv(
    env: Env,
    hasRootDomain: bool,
    findRoot: Option<Xid> -> Option<TransactionStatus>)

  /** The root lookup `findByRootXid`, consulted only when a root domain is set. */
  function ViewOf(renv: RecoveryEnv, t: Transaction): (v: RootView)
    ensures !renv.hasRootDomain <==> v == NoRootDomain
    ensures v == RootAbsent <==> renv.hasRootDomain && renv.findRoot(t.rootXid).None?
  {
    if !renv.hasRootDomain then NoRootDomain
    else match renv.findRoot(t.rootXid)
      case None => RootAbsent
      case Some(s) => RootFound(s)
  }

  /** The decision table: commit (Confirm), roll back (Cancel) or leave
      alone (None), by transaction type, status and, for a branch whose try
      succeeded, its root. */
  function Decide(t: Transaction, view: RootView): (r: Option<Phase>)
    ensures r == Some(Confirm) <==>
              || t.status == TransactionStatus.Confirming
              || (t.kind == Branch && t.status == TransactionStatus.TrySuccess && view == RootFound(TransactionStatus.Confirming))
    ensures r == Some(Cancel) <==>
              || t.status == TransactionStatus.Cancelling
              || (t.kind == Branch && t.status == TransactionStatus.TryFailed)
              || (t.kind == Branch && t.status == TransactionStatus.TrySuccess &&
                  (view == RootAbsent || view == RootFound(TransactionStatus.Cancelling)))
  {
    if t.kind == Root then
      if t.status == TransactionStatus.Confirming then Some(Confirm)
      else if t.status == TransactionStatus.Cancelling then Some(Cancel)
      else None
    else
      assert t.kind == Branch;
      if t.status == TransactionStatus.Confirming then Some(Confirm)
      else if t.status == TransactionStatus.Cancelling || t.status == TransactionStatus.TryFailed then Some(Cancel)
      else if t.status == TransactionStatus.TrySuccess then
        match view
        case NoRootDomain => None
        case RootAbsent => Some(Cancel)
        case RootFound(s) =>
          if s == TransactionStatus.Confirming then Some(Confirm)
          else if s == TransactionStatus.Cancelling then Some(Cancel)
          else None
      else None
  }

  /** A transaction still trying is never touched, whatever its root says;
      nor is a branch whose try succeeded while there is no root domain. */
  lemma DecideLeavesAlone(t: Transaction, view: RootView)
    ensures t.status == TransactionStatus.Trying ==> Decide(t, view).None?
    ensures t.kind == Branch && t.status == TransactionStatus.TrySuccess && view == NoRootDomain ==> Decide(t, view).None?
  {
  }

  /** One recovery attempt's effect on the repository, what it did, and the
      exception that ended it, if any. */
  datatype Attempt = Attempt(store: Store, trace: seq<Event>, error: Option<Error>)

  /** The record as recovery rewrites it before the fan-out. */
  function Retried(t: Transaction, phase: Phase): (t': Transaction)
    ensures t'.retriedCount == t.retriedCount + 1 && t'.status == phase.Status()
    ensures t'.(retriedCount := t.retriedCount, status := t.status) == t
  {
    t.AddRetriedCount().(status := phase.Status())
  }

  /** Deleting a record just written leaves the other records as they were. */
  lemma DropSaved(store: Store, x: Xid, saved: Store, s: Store)
    requires saved.Keys - {x} == store.Keys - {x} && forall y :: y in store && y != x ==> y in saved && saved[y] == store[y]
    requires s.Keys == saved.Keys - {x} && forall y :: y in s ==> s[y] == saved[y]
    ensures s == store - {x}
  {
  }

  /** Recovery's `commitTransaction` (Confirm) / `rollbackTransaction`
      (Cancel): one more retry and the phase's status are written first; then
      the fan-out; the record is deleted only when the fan-out succeeded.
      Unlike the manager there is no best-effort save after a failure. */
  function RecoverTerminate(store: Store, t: Transaction, phase: Phase, env: Env): (r: Attempt)
    ensures r.trace != [] && r.trace[0] == Wrote(Update, Retried(t, phase))
    ensures env.faults(Update, Retried(t, phase)).Some? ==>
              r == Attempt(store, [r.trace[0]], env.faults(Update, Retried(t, phase)))
    ensures r.error.None? ==> && r.store == store - {t.xid}
                              && Invocations(r.trace) == Calls(Pending(t.participants, phase), phase)
    ensures env.faults(Update, Retried(t, phase)).None? && r.error.Some? ==>
              r.store == Updated(store, Retried(t, phase).UpdateVersion())
  {
    var t1 := Retried(t, phase);
    var first := Wrote(Update, t1);
    match Save(Update, store, t1, env.faults)
    case Failure(e) => Attempt(store, [first], Some(e))
    case Success(w) =>
      var c := Complete(w.tx, phase, env.invoke);
      var invoked := InvokedAll(c.invoked);
      assert Invocations([first]) == [];
      InvocationsAppend([first], invoked);
      if c.error.Some? then Attempt(w.store, [first] + invoked, c.error)
      else
        match Remove(w.store, c.tx, env.faults)
        case Failure(e) => Attempt(w.store, [first] + invoked + [Wrote(Delete, c.tx)], Some(e))
        case Success(s) =>
          InvocationsAppend([first] + invoked, [Wrote(Delete, c.tx)]);
          assert Invocations([Wrote(Delete, c.tx)]) == [];
          DropSaved(store, t.xid, w.store, s);
          Attempt(s, [first] + invoked + [Wrote(Delete, c.tx)], None)
  }

  /** The two print counters of a page: over-cap transactions and failed recoveries. */
  datatype Counters = Counters(maxRetry: int, failed: int)

  /** A recovery log line, by kind. */
  datatype LogLine =
    | MaxRetryLine(xid: Xid)
    | MaxRetrySuppressed
    | FailedLine(xid: Xid, error: Error)
    | FailedSuppressed
    | OptimisticLockWarning(xid: Xid)

  predicate IsMaxRetryLine(l: LogLine) {
    l.MaxRetryLine? || l.MaxRetrySuppressed?
  }

  predicate IsFailedLine(l: LogLine) {
    l.FailedLine? || l.FailedSuppressed?
  }

  /** The number of lines of the over-cap kind. */
  function MaxRetryLines(log: seq<LogLine>): nat {
    if log == [] then 0
    else MaxRetryLines(log[..|log| - 1]) + (if IsMaxRetryLine(log[|log| - 1]) then 1 else 0)
  }

  /** The number of lines of the failed-recovery kind. */
  function FailedLines(log: seq<LogLine>): nat {
    if log == [] then 0
    else FailedLines(log[..|log| - 1]) + (if IsFailedLine(log[|log| - 1]) then 1 else 0)
  }

  /** Recovery's state within a page: the repository, the source's two print
      counters, what was done and logged, and how many reports of each kind
      the page has made so far. */
  datatype RecoveryState = RecoveryState(
    store: Store,
    counters: Counters,
    trace: seq<Event>,
    log: seq<LogLine>,
    reports: Counters)

  /** The line a throttled report prints. */
  function LineFor(p: Printed, detail: LogLine, suppressed: LogLine): seq<LogLine> {
    match p
    case Detail => [detail]
    case Suppressed => [suppressed]
    case Silent => []
  }

  /** `recoverErrorTransaction`: a transaction retried more than
      `maxRetryCount` times is only reported; otherwise the decision is
      carried out, and any exception it raises stays inside: an
      optimistic-lock conflict is warned about, anything else reported.
      `logging` picks the throttle branch. */
  function RecoverOne(st: RecoveryState, t: Transaction, maxRetry: int, threshold: int,
                      logging: Logging, renv: RecoveryEnv): (r: RecoveryState)
    ensures t.retriedCount > maxRetry ==>
              var th := Report(logging, st.counters.maxRetry, threshold);
              && r.store == st.store && r.trace == st.trace
              && r.counters == st.counters.(maxRetry := th.count)
              && r.log == st.log + LineFor(th.printed, MaxRetryLine(t.xid), MaxRetrySuppressed)
              && r.reports == st.reports.(maxRetry := st.reports.maxRetry + 1)
    ensures t.retriedCount <= maxRetry && Decide(t, ViewOf(renv, t)).None? ==> r == st
    ensures t.retriedCount <= maxRetry && Decide(t, ViewOf(renv, t)).Some? ==>
              var a := RecoverTerminate(st.store, t, Decide(t, ViewOf(renv, t)).value, renv.env);
              && r.store == a.store && r.trace == st.trace + a.trace
              && r.counters.maxRetry == st.counters.maxRetry
              && r.reports.maxRetry == st.reports.maxRetry
              && (a.error.None? ==> r.log == st.log && r.counters == st.counters && r.reports == st.reports)
              && (a.error.Some? && IsOptimisticLock(a.error.value) ==>
                    r.log == st.log + [OptimisticLockWarning(t.xid)] && r.counters == st.counters
                    && r.reports == st.reports)
              && (a.error.Some? && !IsOptimisticLock(a.error.value) ==>
                    var th := Report(logging, st.counters.failed, threshold);
                    && r.counters.failed == th.count
                    && r.log == st.log + LineFor(th.printed, FailedLine(t.xid, a.error.value), FailedSuppressed)
                    && r.reports.failed == st.reports.failed + 1)
  {
    if t.retriedCount > maxRetry then
      var th := Report(logging, st.counters.maxRetry, threshold);
      st.(counters := st.counters.(maxRetry := th.count),
          log := st.log + LineFor(th.printed, MaxRetryLine(t.xid), MaxRetrySuppressed),
          reports := st.reports.(maxRetry := st.reports.maxRetry + 1))
    else
      match Decide(t, ViewOf(renv, t))
      case None => st
      case Some(phase) =>
        var a := RecoverTerminate(st.store, t, phase, renv.env);
        var st1 := st.(store := a.store, trace := st.trace + a.trace);
        match a.error
        case None => st1
        case Some(e) =>
          if IsOptimisticLock(e) then st1.(log := st.log + [OptimisticLockWarning(t.xid)])
          else
            var th := Report(logging, st.counters.failed, threshold);
            st1.(counters := st.counters.(failed := th.count),
                 log := st.log + LineFor(th.printed, FailedLine(t.xid, e), FailedSuppressed),
                 reports := st.reports.(failed := st.reports.failed + 1))
  }

  /** The transactions of a page, one after the other. */
  function RecoverAll(st: RecoveryState, txs: seq<Transaction>, maxRetry: int, threshold: int,
                      logging: Logging, renv: RecoveryEnv): RecoveryState
    decreases |txs|
  {
    if txs == [] then st
    else RecoverAll(RecoverOne(st, txs[0], maxRetry, threshold, logging, renv), txs[1..], maxRetry, threshold, logging, renv)
  }

  /** The number of transactions of a page over the retry cap. */
  function OverCapCount(txs: seq<Transaction>, maxRetry: int): nat {
    if txs == [] then 0
    else (if txs[0].retriedCount > maxRetry then 1 else 0) + OverCapCount(txs[1..], maxRetry)
  }

  /** One page: both print counters start again from zero, then every
      transaction of the page is recovered. The result's log is the page's.
      Every over-cap transaction is reported; as written, with a
      non-negative threshold every report prints a line, so the line counts
      are the report counts, while the intended throttle keeps each kind to
      `Cap(threshold)` lines. */
  function RecoverPage(store: Store, txs: seq<Transaction>, maxRetry: int, threshold: int,
                       logging: Logging, renv: RecoveryEnv): (r: RecoveryState)
    ensures r.reports.maxRetry == OverCapCount(txs, maxRetry)
    ensures logging == AsWritten && threshold >= 0 ==>
              && MaxRetryLines(r.log) == OverCapCount(txs, maxRetry)
              && FailedLines(r.log) == r.reports.failed
    ensures logging == AsWritten && threshold < 0 ==> MaxRetryLines(r.log) == 0 && FailedLines(r.log) == 0
    ensures logging == Intended ==> MaxRetryLines(r.log) <= Cap(threshold) && FailedLines(r.log) <= Cap(threshold)
  {
    var st := RecoveryState(store, Counters(0, 0), [], [], Counters(0, 0));
    RecoverAllReports(st, txs, maxRetry, threshold, logging, renv);
    RecoverAllAsWritten(st, txs, maxRetry, threshold, renv);
    RecoverAllThrottled(st, txs, maxRetry, threshold, renv);
    RecoverAll(st, txs, maxRetry, threshold, logging, renv)
  }

  /** The page-level discrepancy: with a fetch page size of 2 (threshold 1),
      a page of three transactions over the retry cap prints three over-cap
      lines as written, one more than the two the intended throttle allows. */
  lemma PageRepeatsSuppressedLine(store: Store, t: Transaction, maxRetry: int, renv: RecoveryEnv)
    requires t.retriedCount > maxRetry
    ensures MaxRetryLines(RecoverPage(store, [t, t, t], maxRetry, LogThreshold(2), AsWritten, renv).log) == 3
    ensures MaxRetryLines(RecoverPage(store, [t, t, t], maxRetry, LogThreshold(2), Intended, renv).log) <= 2
  {
    assert LogThreshold(2) == 1;
    assert [t, t, t][1..] == [t, t] && [t, t][1..] == [t] && [t][1..] == [];
    assert OverCapCount([t], maxRetry) == 1;
    assert OverCapCount([t, t], maxRetry) == 2;
  }

  /** A page counts one over-cap report per transaction over the cap. */
  lemma {:induction false} RecoverAllReports(st: RecoveryState, txs: seq<Transaction>, maxRetry: int,
                                             threshold: int, logging: Logging, renv: RecoveryEnv)
    ensures RecoverAll(st, txs, maxRetry, threshold, logging, renv).reports.maxRetry
            == st.reports.maxRetry + OverCapCount(txs, maxRetry)
    decreases |txs|
  {
    if txs != [] {
      RecoverAllReports(RecoverOne(st, txs[0], maxRetry, threshold, logging, renv), txs[1..], maxRetry, threshold, logging, renv);
    }
  }

  /** As written: each counter stays within the threshold, so every report
      prints exactly one line of its kind; below zero nothing is printed. */
  predicate LinesFollowReports(st: RecoveryState, threshold: int) {
    if threshold >= 0 then
      && 0 <= st.counters.maxRetry <= threshold
      && 0 <= st.counters.failed <= threshold
      && MaxRetryLines(st.log) == st.reports.maxRetry
      && FailedLines(st.log) == st.reports.failed
    else
      && st.counters == Counters(0, 0)
      && MaxRetryLines(st.log) == 0
      && FailedLines(st.log) == 0
  }

  /** With the intended throttle: each counter counts exactly the lines of
      its kind, and stays within the cap. */
  predicate Throttled(st: RecoveryState, threshold: int) {
    && 0 <= st.counters.maxRetry <= Cap(threshold)
    && 0 <= st.counters.failed <= Cap(threshold)
    && MaxRetryLines(st.log) == st.counters.maxRetry
    && FailedLines(st.log) == st.counters.failed
  }

  /** Appending a line adds one to its own kind's count only. */
  lemma CountsAppend(log: seq<LogLine>, extra: seq<LogLine>)
    requires |extra| <= 1
    ensures MaxRetryLines(log + extra) == MaxRetryLines(log) + (if extra != [] && IsMaxRetryLine(extra[0]) then 1 else 0)
    ensures FailedLines(log + extra) == FailedLines(log) + (if extra != [] && IsFailedLine(extra[0]) then 1 else 0)
  {
    if extra != [] {
      assert (log + extra)[..|log + extra| - 1] == log;
    } else {
      assert log + extra == log;
    }
  }

  /** As written, a counter within a non-negative threshold stays within it
      and every report prints a line; below zero nothing is printed. */
  lemma AsWrittenStep(count: int, threshold: int, detail: LogLine, suppressed: LogLine)
    requires threshold >= 0 ==> 0 <= count <= threshold
    requires threshold < 0 ==> count == 0
    ensures var th := ThrottleAsWritten(count, threshold);
            var extra := LineFor(th.printed, detail, suppressed);
            && (threshold >= 0 ==> 0 <= th.count <= threshold && extra != [])
            && (threshold < 0 ==> th.count == 0 && extra == [])
            && |extra| <= 1
            && (extra != [] ==> extra[0] == detail || extra[0] == suppressed)
  {
  }

  /** A step that appends the one line of a report, or no line of a
      counted kind when the threshold is negative, keeps lines and reports
      in step. */
  lemma AsWrittenKept(st: RecoveryState, r: RecoveryState, threshold: int, extra: seq<LogLine>)
    requires LinesFollowReports(st, threshold)
    requires r.log == st.log + extra && |extra| <= 1
    requires threshold >= 0 ==> 0 <= r.counters.maxRetry <= threshold && 0 <= r.counters.failed <= threshold
    requires threshold < 0 ==> && r.counters == Counters(0, 0)
                               && (extra != [] ==> !IsMaxRetryLine(extra[0]) && !IsFailedLine(extra[0]))
    requires threshold >= 0 ==>
               && r.reports.maxRetry == st.reports.maxRetry + (if extra != [] && IsMaxRetryLine(extra[0]) then 1 else 0)
               && r.reports.failed == st.reports.failed + (if extra != [] && IsFailedLine(extra[0]) then 1 else 0)
    ensures LinesFollowReports(r, threshold)
  {
    CountsAppend(st.log, extra);
  }

  /** As written, one transaction keeps every report matched by one line. */
  lemma RecoverOneAsWritten(st: RecoveryState, t: Transaction, maxRetry: int, threshold: int, renv: RecoveryEnv)
    requires LinesFollowReports(st, threshold)
    ensures LinesFollowReports(RecoverOne(st, t, maxRetry, threshold, AsWritten, renv), threshold)
  {
    var r := RecoverOne(st, t, maxRetry, threshold, AsWritten, renv);
    if t.retriedCount > maxRetry {
      AsWrittenStep(st.counters.maxRetry, threshold, MaxRetryLine(t.xid), MaxRetrySuppressed);
      var th := ThrottleAsWritten(st.counters.maxRetry, threshold);
      AsWrittenKept(st, r, threshold, LineFor(th.printed, MaxRetryLine(t.xid), MaxRetrySuppressed));
    } else if Decide(t, ViewOf(renv, t)).Some? {
      var a := RecoverTerminate(st.store, t, Decide(t, ViewOf(renv, t)).value, renv.env);
      if a.error.Some? && IsOptimisticLock(a.error.value) {
        AsWrittenKept(st, r, threshold, [OptimisticLockWarning(t.xid)]);
      } else if a.error.Some? {
        AsWrittenStep(st.counters.failed, threshold, FailedLine(t.xid, a.error.value), FailedSuppressed);
        var th := ThrottleAsWritten(st.counters.failed, threshold);
        AsWrittenKept(st, r, threshold, LineFor(th.printed, FailedLine(t.xid, a.error.value), FailedSuppressed));
      } else {
        AsWrittenKept(st, r, threshold, []);
      }
    }
  }

  lemma {:induction false} RecoverAllAsWritten(st: RecoveryState, txs: seq<Transaction>, maxRetry: int,
                                               threshold: int, renv: RecoveryEnv)
    requires LinesFollowReports(st, threshold)
    ensures LinesFollowReports(RecoverAll(st, txs, maxRetry, threshold, AsWritten, renv), threshold)
    decreases |txs|
  {
    if txs != [] {
      RecoverOneAsWritten(st, txs[0], maxRetry, threshold, renv);
      RecoverAllAsWritten(RecoverOne(st, txs[0], maxRetry, threshold, AsWritten, renv), txs[1..], maxRetry, threshold, renv);
    }
  }

  /** With the intended throttle, a counter within the cap stays within it
      and moves up by exactly the number of lines printed. */
  lemma IntendedStep(count: int, threshold: int, detail: LogLine, suppressed: LogLine)
    requires 0 <= count <= Cap(threshold)
    ensures var th := Throttle(count, threshold);
            var extra := LineFor(th.printed, detail, suppressed);
            && 0 <= th.count <= Cap(threshold)
            && th.count == count + |extra|
            && (extra != [] ==> extra[0] == detail || extra[0] == suppressed)
  {
  }

  /** With the intended throttle, one transaction keeps the page's counters
      and log in step. */
  /** A step that appends at most one line and moves each counter by the
      lines of its kind keeps the intended throttle's invariant. */
  lemma ThrottledKept(st: RecoveryState, r: RecoveryState, threshold: int, extra: seq<LogLine>)
    requires Throttled(st, threshold)
    requires r.log == st.log + extra && |extra| <= 1
    requires r.counters.maxRetry == st.counters.maxRetry + (if extra != [] && IsMaxRetryLine(extra[0]) then 1 else 0)
    requires r.counters.failed == st.counters.failed + (if extra != [] && IsFailedLine(extra[0]) then 1 else 0)
    requires r.counters.maxRetry <= Cap(threshold) && r.counters.failed <= Cap(threshold)
    ensures Throttled(r, threshold)
  {
    CountsAppend(st.log, extra);
  }

  lemma RecoverOneThrottled(st: RecoveryState, t: Transaction, maxRetry: int, threshold: int, renv: RecoveryEnv)
    requires Throttled(st, threshold)
    ensures Throttled(RecoverOne(st, t, maxRetry, threshold, Intended, renv), threshold)
  {
    var r := RecoverOne(st, t, maxRetry, threshold, Intended, renv);
    if t.retriedCount > maxRetry {
      IntendedStep(st.counters.maxRetry, threshold, MaxRetryLine(t.xid), MaxRetrySuppressed);
      var th := Throttle(st.counters.maxRetry, threshold);
      ThrottledKept(st, r, threshold, LineFor(th.printed, MaxRetryLine(t.xid), MaxRetrySuppressed));
    } else if Decide(t, ViewOf(renv, t)).Some? {
      var a := RecoverTerminate(st.store, t, Decide(t, ViewOf(renv, t)).value, renv.env);
      if a.error.Some? && IsOptimisticLock(a.error.value) {
        ThrottledKept(st, r, threshold, [OptimisticLockWarning(t.xid)]);
      } else if a.error.Some? {
        IntendedStep(st.counters.failed, threshold, FailedLine(t.xid, a.error.value), FailedSuppressed);
        var th := Throttle(st.counters.failed, threshold);
        ThrottledKept(st, r, threshold, LineFor(th.printed, FailedLine(t.xid, a.error.value), FailedSuppressed));
      } else {
        ThrottledKept(st, r, threshold, []);
      }
    }
  }

  lemma {:induction false} RecoverAllThrottled(st: RecoveryState, txs: seq<Transaction>, maxRetry: int,
                                               threshold: int, renv: RecoveryEnv)
    requires Throttled(st, threshold)
    ensures Throttled(RecoverAll(st, txs, maxRetry, threshold, Intended, renv), threshold)
    decreases |txs|
  {
    if txs != [] {
      RecoverOneThrottled(st, txs[0], maxRetry, threshold, renv);
      RecoverAllThrottled(RecoverOne(st, txs[0], maxRetry, threshold, Intended, renv), txs[1..], maxRetry, threshold, renv);
    }
  }

  /** Transactions over the retry cap are never written and never contacted:
      a page of them leaves the repository and the trace as they were. */
  lemma {:induction false} OverCapUntouched(st: RecoveryState, txs: seq<Transaction>, maxRetry: int,
                                            threshold: int, logging: Logging, renv: RecoveryEnv)
    requires forall i :: 0 <= i < |txs| ==> txs[i].retriedCount > maxRetry
    ensures RecoverAll(st, txs, maxRetry, threshold, logging, renv).store == st.store
    ensures RecoverAll(st, txs, maxRetry, threshold, logging, renv).trace == st.trace
    decreases |txs|
  {
    if txs != [] {
      OverCapUntouched(RecoverOne(st, txs[0], maxRetry, threshold, logging, renv), txs[1..], maxRetry, threshold, logging, renv);
    }
  }
}
