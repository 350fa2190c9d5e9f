/** The transaction registry: the calling thread's stack of active
    transactions plus the repository, with begin, propagation, enlistment,
    commit/rollback, status changes and clean-up. The top of the stack is the
    last element of `stack`. */
module TransactionManager {
  import opened Wrappers
  import opened Errors
  import opened Status
  import opened Context
  import opened Participants
  import opened Terminator
  import opened Transactions
  import opened Repository
  import opened Effects

  datatype Manager = Manager(stack: seq<Transaction>, store: Store)

  /** A manager call: the state afterwards, what it did, and what it returned or threw. */
  datatype Step<T> = Step(m: Manager, trace: seq<Event>, result: Result<T, Error>)

  function Top(m: Manager): Transaction
    requires m.stack != []
  {
    m.stack[|m.stack| - 1]
  }

  /** `getCurrentTransaction`: null exactly when the stack is empty, otherwise
      the most recently pushed transaction. */
  function Current(m: Manager): (r: Option<Transaction>)
    ensures r.None? <==> m.stack == []
    ensures r.Some? ==> r.value == m.stack[|m.stack| - 1]
  {
    if m.stack == [] then None else Some(Top(m))
  }

  /** The top entry replaced, as Java mutates the top transaction in place. */
  function WithTop(m: Manager, t: Transaction): (r: Manager)
    requires m.stack != []
    ensures r.stack != [] && Top(r) == t && r.store == m.store
    ensures SameBelowTop(m, r)
  {
    m.(stack := m.stack[..|m.stack| - 1] + [t])
  }

  /** Same depth, and every entry below the top untouched. */
  predicate SameBelowTop(m: Manager, m': Manager) {
    && |m'.stack| == |m.stack|
    && m.stack != []
    && m'.stack[..|m.stack| - 1] == m.stack[..|m.stack| - 1]
  }

  /** `registerTransaction`: push. */
  function Register(m: Manager, t: Transaction): (r: Manager)
    ensures r.stack == m.stack + [t] && Current(r) == Some(t) && r.store == m.store
  {
    m.(stack := m.stack + [t])
  }

  /** `begin`: a new ROOT transaction in status TRYING under the xid the
      identifier generator produced, pushed on top; the repository is not
      written. */
  function Begin(m: Manager, xid: Xid): (r: Step<Transaction>)
    ensures r.result.Success?
    ensures var t := r.result.value;
            && t.kind == Root && t.status == TransactionStatus.Trying
            && t.xid == xid && t.rootXid == Some(xid) && t.participants == []
    ensures r.m.stack == m.stack + [r.result.value]
    ensures Current(r.m) == Some(r.result.value)
    ensures r.m.store == m.store && r.trace == []
  {
    var t := NewTransaction(xid, Root);
    Step(Register(m, t), [], Success(t))
  }

  /** `propagationNewBegin`: a BRANCH transaction for the inbound context,
      pushed on top; the repository is not written. */
  function PropagationNewBegin(m: Manager, ctx: TransactionContext): (r: Step<Transaction>)
    ensures r.result.Success?
    ensures var t := r.result.value;
            && t.kind == Branch && t.status == TransactionStatus.Trying
            && t.xid == ctx.xid && t.rootXid == ctx.rootXid && t.participants == []
    ensures r.m.stack == m.stack + [r.result.value]
    ensures r.m.store == m.store && r.trace == []
  {
    var t := NewBranch(ctx);
    Step(Register(m, t), [], Success(t))
  }

  /** `propagationExistBegin`: pushes and returns the stored branch, or raises
      NoExistedTransaction and leaves the stack alone. */
  function PropagationExistBegin(m: Manager, ctx: TransactionContext): (r: Step<Transaction>)
    ensures ctx.xid in m.store ==> && r.result == Success(m.store[ctx.xid])
                                   && r.m.stack == m.stack + [m.store[ctx.xid]]
    ensures ctx.xid !in m.store ==> r.result == Failure(NoExistedTransaction) && r.m == m
    ensures r.m.store == m.store && r.trace == []
  {
    match FindByXid(m.store, ctx.xid)
    case Some(t) => Step(Register(m, t), [], Success(t))
    case None => Step(m, [], Failure(NoExistedTransaction))
  }

  /** `enlistParticipant`: appends to the top transaction, then persists it
      with `create` when it was never written (version 0) and `update`
      otherwise. */
  function EnlistParticipant(m: Manager, p: Participant, env: Env): (r: Step<()>)
    requires m.stack != []
    ensures var t := Top(m).Enlist(p);
            var op := if Top(m).version == 0 then Create else Update;
            && r.trace == [Wrote(op, t)]
            && SameBelowTop(m, r.m)
            && (r.result.Failure? <==> env.faults(op, t).Some?)
            && (r.result.Failure? ==> Top(r.m) == t && r.m.store == m.store)
            && (r.result.Success? ==> Top(r.m) == t.UpdateVersion())
            && (r.result.Success? && op == Create ==> r.m.store == m.store[t.xid := Top(r.m)])
            && (r.result.Success? && op == Update ==> r.m.store == Updated(m.store, Top(r.m)))
  {
    var t := Top(m).Enlist(p);
    var op := if t.version == 0 then Create else Update;
    match Save(op, m.store, t, env.faults)
    case Success(w) => Step(Manager(WithTop(m, w.tx).stack, w.store), [Wrote(op, t)], Success(()))
    case Failure(e) => Step(WithTop(m, t), [Wrote(op, t)], Failure(e))
  }

  /** The exception a failed fan-out is reported as. */
  function Wrap(phase: Phase, cause: Error): Error {
    if phase == Confirm then ConfirmingError(cause) else CancellingError(cause)
  }

  /** The best-effort save after a failed fan-out: attempted once, its own
      failure ignored; the call then raises the wrapped cause. */
  function SaveAfterFailure(m: Manager, phase: Phase, cause: Error, trace: seq<Event>, env: Env): (r: Step<()>)
    requires m.stack != []
    ensures r.result == Failure(Wrap(phase, cause))
    ensures r.trace == trace + [Wrote(Update, Top(m))]
    ensures Invocations(r.trace) == Invocations(trace)
    ensures SameBelowTop(m, r.m)
    ensures env.faults(Update, Top(m)).None? ==>
              r.m.store == Updated(m.store, Top(m).UpdateVersion()) && Top(r.m) == Top(m).UpdateVersion()
    ensures env.faults(Update, Top(m)).Some? ==> r.m == m
  {
    var t := Top(m);
    InvocationsAppend(trace, [Wrote(Update, t)]);
    assert Invocations([Wrote(Update, t)]) == [];
    match Save(Update, m.store, t, env.faults)
    case Success(w) => Step(Manager(WithTop(m, w.tx).stack, w.store), trace + [Wrote(Update, t)], Failure(Wrap(phase, cause)))
    case Failure(_) => Step(m, trace + [Wrote(Update, t)], Failure(Wrap(phase, cause)))
  }

  /** `commitTransaction` (Confirm) / `rollbackTransaction` (Cancel): fan out
      to the participants of the top transaction, then delete its record. A
      failure of either step is followed by the best-effort save and raised
      as ConfirmingError / CancellingError; the record is then kept. */
  function TerminateTransaction(m: Manager, phase: Phase, env: Env): (r: Step<()>)
    requires m.stack != []
    ensures SameBelowTop(m, r.m)
    ensures Top(r.m).(participants := Top(m).participants, version := Top(m).version) == Top(m)
    ensures Settles(Top(m).participants, Top(r.m).participants, phase)
    ensures r.result.Success? ==>
              && AllDone(Top(r.m).participants, phase)
              && r.m.store == m.store - {Top(m).xid}
              && Invocations(r.trace) == Calls(Pending(Top(m).participants, phase), phase)
    ensures var c := Complete(Top(m), phase, env.invoke);
            && Top(r.m).(version := Top(m).version) == c.tx
            && Invocations(r.trace) == c.invoked
            && (r.result.Failure? <==> c.error.Some? || env.faults(Delete, c.tx).Some?)
  {
    var t := Top(m);
    var c := Complete(t, phase, env.invoke);
    var invoked := InvokedAll(c.invoked);
    var m1 := WithTop(m, c.tx);
    if c.error.None? then
      match Remove(m.store, c.tx, env.faults)
      case Success(s) =>
        InvocationsAppend(invoked, [Wrote(Delete, c.tx)]);
        assert Invocations([Wrote(Delete, c.tx)]) == [];
        Step(m1.(store := s), invoked + [Wrote(Delete, c.tx)], Success(()))
      case Failure(e) =>
        InvocationsAppend(invoked, [Wrote(Delete, c.tx)]);
        assert Invocations([Wrote(Delete, c.tx)]) == [];
        SaveAfterFailure(m1, phase, e, invoked + [Wrote(Delete, c.tx)], env)
    else SaveAfterFailure(m1, phase, c.error.value, invoked, env)
  }

  /** A failed `commitTransaction` / `rollbackTransaction` ends with the
      best-effort update of the transaction the fan-out left, which is
      stored unless that update faults, and raises the wrapped failure of
      the fan-out or, when the fan-out finished, of the delete. */
  lemma TerminateFailure(m: Manager, phase: Phase, env: Env)
    requires m.stack != []
    ensures var r := TerminateTransaction(m, phase, env);
            var c := Complete(Top(m), phase, env.invoke);
            r.result.Failure? ==>
              && r.trace != [] && r.trace[|r.trace| - 1] == Wrote(Update, c.tx)
              && r.result.error == Wrap(phase, if c.error.Some? then c.error.value else env.faults(Delete, c.tx).value)
              && (env.faults(Update, c.tx).None? ==> r.m.store == Updated(m.store, c.tx.UpdateVersion()))
              && (env.faults(Update, c.tx).Some? ==> r.m.store == m.store)
  {
  }

  /** Why `commitTransaction` / `rollbackTransaction` failed: either the
      fan-out stopped at a participant k, after finishing those before it,
      and the wrapped error is k's request failure; or every participant
      finished and the wrapped error is the delete's. */
  lemma TerminateFailureCause(m: Manager, phase: Phase, env: Env)
    requires m.stack != []
    ensures var r := TerminateTransaction(m, phase, env);
            var ps := Top(m).participants;
            r.result.Failure? ==>
              || (exists k :: && 0 <= k < |ps| && !IsDone(ps[k], phase)
                              && AllDone(Top(r.m).participants[..k], phase)
                              && Top(r.m).participants[k..] == ps[k..]
                              && Invocations(r.trace) == Calls(Pending(ps[..k + 1], phase), phase)
                              && Dispatch(CallFor(ps[k], phase), env.invoke).Some?
                              && r.result.error == Wrap(phase, Dispatch(CallFor(ps[k], phase), env.invoke).value))
              || (&& AllDone(Top(r.m).participants, phase)
                  && Invocations(r.trace) == Calls(Pending(ps, phase), phase)
                  && env.faults(Delete, Top(r.m).(version := Top(m).version)).Some?
                  && r.result.error == Wrap(phase, env.faults(Delete, Top(r.m).(version := Top(m).version)).value))
  {
    var r := TerminateTransaction(m, phase, env);
    var c := Complete(Top(m), phase, env.invoke);
    if r.result.Failure? && c.error.Some? {
      var k :| StoppedAt(Top(m).participants, phase, env.invoke, FanOut(c.tx.participants, c.invoked, c.error), k);
    }
  }

  /** `commit(async)` (Confirm) / `rollback(async)` (Cancel) on the top
      transaction. The status is set and persisted first; if that write
      fails its exception is raised and no participant is contacted.
      Synchronously the fan-out follows; asynchronously it is handed to the
      worker pool (not modelled), and a refused hand-over is ignored for a
      commit but raised as CancellingError for a rollback. */
  function Terminate(m: Manager, phase: Phase, async: bool, submitted: bool, env: Env): (r: Step<()>)
    requires m.stack != []
    ensures r.trace != [] && r.trace[0] == Wrote(Update, Top(m).(status := phase.Status()))
    ensures SameBelowTop(m, r.m)
    ensures Top(r.m).status == phase.Status() && Top(r.m).xid == Top(m).xid
    ensures env.faults(Update, Top(m).(status := phase.Status())).Some? ==>
              && r.result == Failure(env.faults(Update, Top(m).(status := phase.Status())).value)
              && r.trace == [r.trace[0]] && r.m.store == m.store
    ensures async ==> Invocations(r.trace) == []
    ensures async && env.faults(Update, Top(m).(status := phase.Status())).None? ==>
              && r.m.store == Updated(m.store, Top(m).(status := phase.Status()).UpdateVersion())
              && (r.result.Success? <==> submitted || phase == Confirm)
              && (r.result.Failure? ==> r.result.error == CancellingError(RejectedExecution))
  {
    var t := Top(m).(status := phase.Status());
    var first := Wrote(Update, t);
    assert Invocations([first]) == [];
    match Save(Update, m.store, t, env.faults)
    case Failure(e) => Step(WithTop(m, t), [first], Failure(e))
    case Success(w) =>
      var m1 := Manager(WithTop(m, w.tx).stack, w.store);
      if async then
        if submitted || phase == Confirm then Step(m1, [first], Success(()))
        else Step(m1, [first], Failure(CancellingError(RejectedExecution)))
      else
        var s := TerminateTransaction(m1, phase, env);
        InvocationsAppend([first], s.trace);
        Step(s.m, [first] + s.trace, s.result)
  }

  /** A synchronous commit or rollback whose status write succeeded is that
      write followed by `commitTransaction` / `rollbackTransaction`. */
  lemma TerminateSyncSteps(m: Manager, phase: Phase, submitted: bool, env: Env)
    requires m.stack != []
    requires env.faults(Update, Top(m).(status := phase.Status())).None?
    ensures var t := Top(m).(status := phase.Status());
            var m1 := Manager(WithTop(m, t.UpdateVersion()).stack, Updated(m.store, t.UpdateVersion()));
            var s := TerminateTransaction(m1, phase, env);
            && Top(m1).participants == Top(m).participants && Top(m1).xid == Top(m).xid
            && Terminate(m, phase, false, submitted, env) == Step(s.m, [Wrote(Update, t)] + s.trace, s.result)
            && Invocations(Terminate(m, phase, false, submitted, env).trace) == Invocations(s.trace)
  {
    var t := Top(m).(status := phase.Status());
    var s := TerminateTransaction(Manager(WithTop(m, t.UpdateVersion()).stack, Updated(m.store, t.UpdateVersion())), phase, env);
    InvocationsAppend([Wrote(Update, t)], s.trace);
  }

  /** A synchronous commit or rollback that succeeds has deleted the record,
      finished every participant and called exactly the pending ones. */
  lemma TerminateSyncSucceeds(m: Manager, phase: Phase, submitted: bool, env: Env)
    requires m.stack != []
    ensures var r := Terminate(m, phase, false, submitted, env);
            r.result.Success? ==>
              && Top(m).xid !in r.m.store
              && AllDone(Top(r.m).participants, phase)
              && Invocations(r.trace) == Calls(Pending(Top(m).participants, phase), phase)
  {
    if env.faults(Update, Top(m).(status := phase.Status())).None? {
      TerminateSyncSteps(m, phase, submitted, env);
    }
  }

  /** A synchronous commit or rollback that fails after its status write
      ends with the best-effort update, raises the wrapped failure of the
      fan-out or of the delete, and keeps the record. */
  lemma TerminateSyncFails(m: Manager, phase: Phase, submitted: bool, env: Env)
    requires m.stack != []
    ensures var r := Terminate(m, phase, false, submitted, env);
            var t := Top(m).(status := phase.Status());
            var c := Complete(t.UpdateVersion(), phase, env.invoke);
            env.faults(Update, t).None? && r.result.Failure? ==>
              && r.trace[|r.trace| - 1] == Wrote(Update, c.tx)
              && r.result.error == Wrap(phase, if c.error.Some? then c.error.value else env.faults(Delete, c.tx).value)
              && (Top(m).xid in m.store ==> Top(m).xid in r.m.store)
  {
    var t := Top(m).(status := phase.Status());
    if env.faults(Update, t).None? {
      var m1 := Manager(WithTop(m, t.UpdateVersion()).stack, Updated(m.store, t.UpdateVersion()));
      TerminateSyncSteps(m, phase, submitted, env);
      TerminateFailure(m1, phase, env);
      assert Top(m1) == t.UpdateVersion();
    }
  }

  /** `cleanAfterCompletion`: nothing to do for a null transaction or an
      empty stack; pops when the given transaction is the one on top;
      otherwise raises and leaves the stack alone. Java compares object
      identity, and the object on the stack is mutated in place; the model
      identifies a transaction by its xid. */
  function CleanAfterCompletion(m: Manager, t: Option<Transaction>): (r: Step<()>)
    ensures r.m.store == m.store && r.trace == []
    ensures (t.None? || m.stack == []) ==> r.m == m && r.result.Success?
    ensures (t.Some? && m.stack != [] && t.value.xid == Top(m).xid) ==>
              r.m.stack == m.stack[..|m.stack| - 1] && r.result.Success?
    ensures (t.Some? && m.stack != [] && t.value.xid != Top(m).xid) ==>
              r.m == m && r.result == Failure(IllegalTransactionOnClean)
  {
    if t.None? || m.stack == [] then Step(m, [], Success(()))
    else if t.value.xid == Top(m).xid then Step(m.(stack := m.stack[..|m.stack| - 1]), [], Success(()))
    else Step(m, [], Failure(IllegalTransactionOnClean))
  }

  /** The outcome of the asynchronous status save: it never raises. */
  datatype SaveOutcome = SaveOutcome(store: Store, tx: Transaction, trace: seq<Event>)

  /** `AsyncSaveTask.run`: writes only a TRY_SUCCESS transaction whose stored
      record still says TRYING; any failure is swallowed. */
  function AsyncSave(s: Store, t: Transaction, faults: Faults): (r: SaveOutcome)
    ensures r.trace != [] <==> && t.status == TransactionStatus.TrySuccess
                               && t.xid in s && s[t.xid].status == TransactionStatus.Trying
    ensures r.trace != [] ==> r.trace == [Wrote(Update, t)]
    ensures r.trace != [] && faults(Update, t).None? ==>
              r.store == s[t.xid := t.UpdateVersion()] && r.tx == t.UpdateVersion()
    ensures r.trace == [] || faults(Update, t).Some? ==> r.store == s && r.tx == t
  {
    if t.status == TransactionStatus.TrySuccess then
      match FindByXid(s, t.xid)
      case Some(found) =>
        if found.status == TransactionStatus.Trying then
          match Save(Update, s, t, faults)
          case Success(w) => SaveOutcome(w.store, w.tx, [Wrote(Update, t)])
          case Failure(_) => SaveOutcome(s, t, [Wrote(Update, t)])
        else SaveOutcome(s, t, [])
      case None => SaveOutcome(s, t, [])
    else SaveOutcome(s, t, [])
  }

  /** `changeStatus(status, asyncSave)`: sets the top transaction's status.
      Synchronously the update's failure is raised; asynchronously the
      guarded save runs (modelled as finishing before the caller goes on)
      and nothing is raised. */
  function ChangeStatus(m: Manager, status: TransactionStatus, async: bool, env: Env): (r: Step<()>)
    requires m.stack != []
    ensures SameBelowTop(m, r.m)
    ensures Top(r.m).(version := Top(m).version) == Top(m).(status := status)
    ensures async ==> && r.result.Success?
                      && r.trace == AsyncSave(m.store, Top(m).(status := status), env.faults).trace
                      && r.m.store == AsyncSave(m.store, Top(m).(status := status), env.faults).store
    ensures !async ==> && r.trace == [Wrote(Update, Top(m).(status := status))]
                       && (r.result.Failure? <==> env.faults(Update, Top(m).(status := status)).Some?)
                       && (r.result.Failure? ==> && r.m.store == m.store
                                                 && r.result.error == env.faults(Update, Top(m).(status := status)).value)
                       && (r.result.Success? ==> && Top(r.m) == Top(m).(status := status).UpdateVersion()
                                                 && Top(r.m).version == Top(m).version + 1
                                                 && (Top(m).xid in m.store ==> r.m.store == m.store[Top(m).xid := Top(r.m)])
                                                 && (Top(m).xid !in m.store ==> r.m.store == m.store))
  {
    var t := Top(m).(status := status);
    if async then
      var o := AsyncSave(m.store, t, env.faults);
      Step(Manager(WithTop(m, o.tx).stack, o.store), o.trace, Success(()))
    else
      match Save(Update, m.store, t, env.faults)
      case Success(w) => Step(Manager(WithTop(m, w.tx).stack, w.store), [Wrote(Update, t)], Success(()))
      case Failure(e) => Step(WithTop(m, t), [Wrote(Update, t)], Failure(e))
  }
}
