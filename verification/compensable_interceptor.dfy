/** The interceptor around @Compensable methods: a ROOT call runs the whole
    try/confirm-or-cancel cycle of a new transaction, a PROVIDER call serves
    one stage of a remote transaction's branch, any other call proceeds. */
module CompensableInterceptor {
  import opened Wrappers
  import opened Errors
  import opened Status
  import opened Context
  import opened Participants
  import opened Transactions
  import opened Repository
  import opened Effects
  import opened TransactionManager
  import opened MethodContext

  /** Where a root transaction's xid comes from: `new TransactionXid(uniqueIdentity)`. */
  type XidFactory = Value -> Xid

  /** The business method left the stack as it found it: same depth, the
      entries below untouched and the caller's transaction still on top. */
  predicate Balanced(before: Manager, after: Manager) {
    && before.stack != []
    && |after.stack| == |before.stack|
    && after.stack[..|before.stack| - 1] == before.stack[..|before.stack| - 1]
    && Top(after).xid == Top(before).xid
  }

  /** `finally { cleanAfterCompletion(transaction) }`: an exception from the
      clean replaces the outcome so far. */
  function Finally(s: Step<Value>, t: Option<Transaction>): (r: Step<Value>)
    ensures r.trace == s.trace && r.m == CleanAfterCompletion(s.m, t).m
    ensures r.result == (if CleanAfterCompletion(s.m, t).result.Success? then s.result else Failure(IllegalTransactionOnClean))
  {
    var c := CleanAfterCompletion(s.m, t);
    Step(c.m, s.trace, if c.result.Success? then s.result else Failure(c.result.error))
  }

  /** Cleaning up the transaction just registered gives the manager back as
      it was, and succeeds. */
  lemma PushPop(m: Manager, t: Transaction)
    ensures CleanAfterCompletion(Register(m, t), Some(t)) == Step(m, [], Success(()))
  {
    assert (m.stack + [t])[..|m.stack|] == m.stack;
  }

  /** A balanced call followed by a manager step that keeps the entries
      below the top restores the stack once the top is cleaned. */
  lemma CleanRestores(m: Manager, t: Transaction, after: Manager, done: Manager)
    requires Balanced(Register(m, t), after)
    requires SameBelowTop(after, done) && Top(done).xid == t.xid
    ensures CleanAfterCompletion(done, Some(t)).m.stack == m.stack
    ensures CleanAfterCompletion(done, Some(t)).result.Success?
  {
  }

  /** After the try: confirm when it returned, cancel when it threw. */
  function Conclude(s: Step<Value>, comp: Compensable, submitted: bool, env: Env): Step<Value> {
    if s.m.stack == [] then Step(s.m, s.trace, Failure(NullTransaction))
    else if s.result.Success? then
      var k := Terminate(s.m, Confirm, comp.asyncConfirm, submitted, env);
      Step(k.m, s.trace + k.trace, if k.result.Failure? then Failure(k.result.error) else s.result)
    else
      var k := Terminate(s.m, Cancel, comp.asyncCancel, submitted, env);
      Step(k.m, s.trace + k.trace, if k.result.Failure? then Failure(k.result.error) else s.result)
  }

  /** The phase that concludes a try with the given outcome. */
  function PhaseAfter<T>(tried: Result<T, Error>): Phase {
    if tried.Success? then Confirm else Cancel
  }

  /** `rootMethodProceed`: begins a ROOT transaction, runs the try, then
      commits when it returned and rolls back when it threw, and always
      cleans up. The try's own result or exception is what the caller sees,
      unless the commit, the rollback or the clean-up throws instead. */
  function RootProceed(m: Manager, jp: JoinPoint, comp: Compensable, xidOf: XidFactory,
                       body: Body, env: Env, submitted: bool): (r: Step<Value>)
    requires jp.WellFormed()
    ensures var b := Begin(m, xidOf(UniqueIdentity(jp)));
            var s := body(b.m, jp);
            && |r.trace| >= 1 + |s.trace|
            && r.trace[..1 + |s.trace|] == [Proceeded(jp.args, jp.sideChannel)] + s.trace
            && (s.m.stack == [] ==> r.result == Failure(NullTransaction))
            && (Balanced(b.m, s.m) ==>
                  var phase := PhaseAfter(s.result);
                  var k := Terminate(s.m, phase, if phase == Confirm then comp.asyncConfirm else comp.asyncCancel, submitted, env);
                  && r.m.stack == m.stack
                  && r.m.store == k.m.store
                  && r.trace == [Proceeded(jp.args, jp.sideChannel)] + s.trace + k.trace
                  && r.trace[1 + |s.trace|] == Wrote(Update, Top(s.m).(status := phase.Status()))
                  && r.result == (if k.result.Failure? then Failure(k.result.error) else s.result))
  {
    var b := Begin(m, xidOf(UniqueIdentity(jp)));
    var t := b.result.value;
    var s := Proceed(b.m, jp, body);
    var done := Conclude(s, comp, submitted, env);
    if Balanced(b.m, s.m) then
      CleanRestores(m, t, s.m, done.m);
      Finally(done, Some(t))
    else Finally(done, Some(t))
  }

  /** The only cases in which a branch may be cancelled: its try is over
      locally or in rollback already, or the consumer saw the try succeed.
      A branch still TRYING (or CONFIRMING) locally whose consumer did not
      see the try succeed may still be running its try. */
  function CanCancel(local: TransactionStatus, inbound: ParticipantStatus): (r: bool)
    ensures !r <==> && (local == TransactionStatus.Trying || local == TransactionStatus.Confirming)
                    && inbound != ParticipantStatus.TrySuccess
  {
    || local == TransactionStatus.TrySuccess
    || local == TransactionStatus.TryFailed
    || local == TransactionStatus.Cancelling
    || inbound == ParticipantStatus.TrySuccess
  }

  /** The provider's TRYING stage: starts the branch, runs the try, then
      records TRY_SUCCESS through the guarded asynchronous save or TRY_FAILED
      through a synchronous update, and cleans up. The try's result is
      returned, and its exception rethrown unless the update throws. */
  function ProviderTry(m: Manager, jp: JoinPoint, ctx: TransactionContext, body: Body, env: Env): (r: Step<Value>)
    ensures var b := PropagationNewBegin(m, ctx);
            var s := body(b.m, jp);
            && |r.trace| >= 1 + |s.trace|
            && r.trace[..1 + |s.trace|] == [Proceeded(jp.args, jp.sideChannel)] + s.trace
            && (s.m.stack == [] ==> r.result == Failure(NullTransaction))
            && (Balanced(b.m, s.m) ==>
                  && r.m.stack == m.stack
                  && (s.result.Success? ==>
                        && r.result == s.result
                        && r.m.store == AsyncSave(s.m.store, Top(s.m).(status := TransactionStatus.TrySuccess), env.faults).store)
                  && (s.result.Failure? ==>
                        && r.trace == [Proceeded(jp.args, jp.sideChannel)] + s.trace
                                      + [Wrote(Update, Top(s.m).(status := TransactionStatus.TryFailed))]
                        && r.result.Failure?
                        && (env.faults(Update, Top(s.m).(status := TransactionStatus.TryFailed)).None? ==>
                              && r.result == s.result
                              && (Top(s.m).xid in s.m.store ==>
                                    r.m.store == s.m.store[Top(s.m).xid := Top(s.m).(status := TransactionStatus.TryFailed).UpdateVersion()])
                              && (Top(s.m).xid !in s.m.store ==> r.m.store == s.m.store))
                        && (env.faults(Update, Top(s.m).(status := TransactionStatus.TryFailed)).Some? ==>
                              && r.result == Failure(env.faults(Update, Top(s.m).(status := TransactionStatus.TryFailed)).value)
                              && r.m.store == s.m.store)))
  {
    var b := PropagationNewBegin(m, ctx);
    var t := b.result.value;
    var s := Proceed(b.m, jp, body);
    var done :=
      if s.m.stack == [] then Step(s.m, s.trace, Failure(NullTransaction))
      else if s.result.Success? then
        var c := ChangeStatus(s.m, TransactionStatus.TrySuccess, true, env);
        Step(c.m, s.trace + c.trace, s.result)
      else
        var c := ChangeStatus(s.m, TransactionStatus.TryFailed, false, env);
        Step(c.m, s.trace + c.trace, if c.result.Failure? then Failure(c.result.error) else s.result);
    if Balanced(b.m, s.m) then
      CleanRestores(m, t, s.m, done.m);
      Finally(done, Some(t))
    else Finally(done, Some(t))
  }

  /** A stage's outcome after the commit or rollback: NoExistedTransaction is
      swallowed, other exceptions pass, and otherwise the method returns the
      default value of its return type. */
  function Settled(k: Step<()>, nullValue: Value): (r: Step<Value>)
    ensures r.m == k.m && r.trace == k.trace
    ensures r.result.Success? <==> k.result.Success? || k.result.error == NoExistedTransaction
    ensures r.result.Success? ==> r.result.value == nullValue
    ensures r.result.Failure? ==> r.result.error == k.result.error
  {
    Step(k.m, k.trace,
         if k.result.Failure? && k.result.error != NoExistedTransaction then Failure(k.result.error) else Success(nullValue))
  }

  /** The provider's CONFIRMING stage: commits the stored branch; a branch
      no longer stored has completed already, and the call just returns. */
  function ProviderConfirm(m: Manager, ctx: TransactionContext, comp: Compensable, nullValue: Value,
                           submitted: bool, env: Env): (r: Step<Value>)
    ensures ctx.xid !in m.store ==> r == Step(m, [], Success(nullValue))
    ensures ctx.xid in m.store ==>
              var k := Terminate(Register(m, m.store[ctx.xid]), Confirm, comp.asyncConfirm, submitted, env);
              && r.m.stack == m.stack
              && r.m.store == k.m.store
              && r.trace == k.trace
              && r.trace[0] == Wrote(Update, m.store[ctx.xid].(status := TransactionStatus.Confirming))
              && r.result == Settled(k, nullValue).result
  {
    var b := PropagationExistBegin(m, ctx);
    match b.result
    case Failure(_) => Step(m, [], Success(nullValue))
    case Success(t) =>
      var k := Terminate(b.m, Confirm, comp.asyncConfirm, submitted, env);
      assert Top(b.m) == t;
      assert (m.stack + [t])[..|m.stack|] == m.stack;
      Finally(Settled(k, nullValue), Some(t))
  }

  /** The provider's CANCELLING stage: rolls the stored branch back when
      CanCancel allows it and raises IllegalTransactionStatus otherwise; a
      branch no longer stored has completed already, and the call returns. */
  function ProviderCancel(m: Manager, ctx: TransactionContext, comp: Compensable, nullValue: Value,
                          submitted: bool, env: Env): (r: Step<Value>)
    ensures ctx.xid !in m.store ==> r == Step(m, [], Success(nullValue))
    ensures ctx.xid in m.store && !CanCancel(m.store[ctx.xid].status, ctx.participantStatus) ==>
              r == Step(m, [], Failure(IllegalTransactionStatus))
    ensures ctx.xid in m.store && CanCancel(m.store[ctx.xid].status, ctx.participantStatus) ==>
              var k := Terminate(Register(m, m.store[ctx.xid]), Cancel, comp.asyncCancel, submitted, env);
              && r.m.stack == m.stack
              && r.m.store == k.m.store
              && r.trace == k.trace
              && r.trace[0] == Wrote(Update, m.store[ctx.xid].(status := TransactionStatus.Cancelling))
              && r.result == Settled(k, nullValue).result
  {
    var b := PropagationExistBegin(m, ctx);
    match b.result
    case Failure(_) => Step(m, [], Success(nullValue))
    case Success(t) =>
      assert Top(b.m) == t;
      assert (m.stack + [t])[..|m.stack|] == m.stack;
      if CanCancel(t.status, ctx.participantStatus) then
        var k := Terminate(b.m, Cancel, comp.asyncCancel, submitted, env);
        Finally(Settled(k, nullValue), Some(t))
      else
        PushPop(m, t);
        Finally(Step(b.m, [], Failure(IllegalTransactionStatus)), Some(t))
  }

  /** `providerMethodProceed`: dispatches on the inbound status. An unknown
      status id throws; an inbound TRY_SUCCESS or TRY_FAILED matches no stage
      and the call returns the default value. */
  function ProviderProceed(m: Manager, jp: JoinPoint, comp: Compensable, ctx: TransactionContext,
                           body: Body, env: Env, submitted: bool): (r: Step<Value>)
    ensures ctx.status !in ValidIds ==> r == Step(m, [], Failure(IllegalArgument))
    ensures ctx.status == TransactionStatus.Trying.Id() ==> r == ProviderTry(m, jp, ctx, body, env)
    ensures ctx.status == TransactionStatus.Confirming.Id() ==>
              r == ProviderConfirm(m, ctx, comp, jp.signature.nullValue, submitted, env)
    ensures ctx.status == TransactionStatus.Cancelling.Id() ==>
              r == ProviderCancel(m, ctx, comp, jp.signature.nullValue, submitted, env)
    ensures ValueOf(ctx.status) == Success(TransactionStatus.TrySuccess)
            || ValueOf(ctx.status) == Success(TransactionStatus.TryFailed) ==>
              r == Step(m, [], Success(jp.signature.nullValue))
  {
    match ValueOf(ctx.status)
    case Failure(e) => Step(m, [], Failure(e))
    case Success(status) =>
      match status
      case Trying => ProviderTry(m, jp, ctx, body, env)
      case Confirming => ProviderConfirm(m, ctx, comp, jp.signature.nullValue, submitted, env)
      case Cancelling => ProviderCancel(m, ctx, comp, jp.signature.nullValue, submitted, env)
      case _ => Step(m, [], Success(jp.signature.nullValue))
  }

  /** `interceptCompensableMethod`: ROOT and PROVIDER calls run their
      workflows; every other call, in particular any call made while a
      transaction is active, just proceeds. */
  function Intercept(m: Manager, jp: JoinPoint, xidOf: XidFactory, body: Body, env: Env, submitted: bool): (r: Step<Value>)
    requires jp.WellFormed()
    ensures EditorGet(jp).Failure? ==> r == Step(m, [], Failure(EditorGet(jp).error))
    ensures EditorGet(jp).Success? && (m.stack != [] || jp.compensable.None?) ==> r == Proceed(m, jp, body)
    ensures EditorGet(jp).Success? && m.stack == [] && jp.compensable.Some? ==>
              match EditorGet(jp).value
              case None => r == RootProceed(m, jp, jp.compensable.value, xidOf, body, env, submitted)
              case Some(ctx) => r == ProviderProceed(m, jp, jp.compensable.value, ctx, body, env, submitted)
  {
    match NewCompensableContext(jp, Current(m))
    case Failure(e) => Step(m, [], Failure(e))
    case Success(mc) =>
      match mc.Role()
      case RootRole => RootProceed(m, jp, jp.compensable.value, xidOf, body, env, submitted)
      case ProviderRole => ProviderProceed(m, jp, jp.compensable.value, mc.context.value, body, env, submitted)
      case _ => Proceed(m, jp, body)
  }
}
