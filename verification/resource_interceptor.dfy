/** The interceptor around methods that carry a transaction context: while
    the current transaction is trying, it enlists the callee as a participant
    before the call and records the call's outcome on it afterwards. */
module ResourceInterceptor {
  import opened Wrappers
  import opened Errors
  import opened Status
  import opened Context
  import opened Participants
  import opened Transactions
  import opened Repository
  import opened Effects
  import opened TransactionManager
  import opened MethodContext

  /** What enlistment decided: no participant (role NORMAL), or the
      participant enlisted together with the call as it proceeds, the
      outbound context attached. */
  datatype Enlistment = NotEnlisted | Enlisted(p: Participant, jp: JoinPoint)

  /** A branch xid under the transaction's global id. The qualifier stands
      for the fresh one `new TransactionXid(globalId)` draws. */
  function BranchXid(t: Transaction, qualifier: nat): (x: Xid)
    ensures x.globalId == t.xid.globalId
  {
    Xid(t.xid.globalId, qualifier)
  }

  /** The context sent along to a new branch. */
  function OutboundContext(t: Transaction, branch: Xid): TransactionContext {
    TransactionContext(t.rootXid, branch, TransactionStatus.Trying.Id(), ParticipantStatus.Trying)
  }

  /** The confirm or cancel descriptor of a call: the declaring class,
      parameter types and arguments of the call, under the given name. */
  function InvocationOf(jp: JoinPoint, name: string): InvocationContext {
    InvocationContext(jp.signature.declaringType, name, jp.signature.parameterTypes, jp.args)
  }

  /** `enlistParticipant` (the interceptor's): unless the role is NORMAL,
      attaches an outbound context when none came in, builds a participant
      for a fresh branch and enlists it through the manager. */
  function Enlist(m: Manager, jp: JoinPoint, qualifier: nat, env: Env): (r: Step<Enlistment>)
    requires m.stack != [] && jp.WellFormed()
    ensures EditorGet(jp).Failure? ==> r == Step(m, [], Failure(EditorGet(jp).error))
    ensures EditorGet(jp).Success? ==>
              (r == Step(m, [], Success(NotEnlisted)) <==>
               RoleOf(jp.compensable.Some?, true, EditorGet(jp).value.Some?) == NormalRole)
    ensures r.result.Success? && r.result.value.Enlisted? ==>
              var t := Top(m);
              var p := r.result.value.p;
              var jp' := r.result.value.jp;
              && p.rootXid == t.rootXid && p.xid == BranchXid(t, qualifier)
              && p.status == ParticipantStatus.Trying && p.editor == jp.editor
              && p.confirmInvocation == InvocationOf(jp', ConfirmMethodName(jp))
              && p.cancelInvocation == InvocationOf(jp', CancelMethodName(jp))
              && jp'.WellFormed()
              && (EditorGet(jp).value.Some? ==> jp' == jp)
              && (EditorGet(jp).value.None? ==>
                    && jp'.(args := jp.args, sideChannel := jp.sideChannel) == jp
                    && EditorGet(jp') == Success(Some(OutboundContext(t, p.xid))))
              && r.trace == [Wrote(if t.version == 0 then Create else Update, t.Enlist(p))]
    ensures r.trace != [] ==>
              && |r.trace| == 1 && r.trace[0].Wrote? && SameBelowTop(m, r.m)
              && Top(r.m).participants == r.trace[0].tx.participants
              && (r.result.Failure? <==> env.faults(r.trace[0].op, r.trace[0].tx).Some?)
    ensures r.trace == [] ==> r.m == m
  {
    var t := Top(m);
    match NewCompensableContext(jp, Some(t))
    case Failure(e) => Step(m, [], Failure(e))
    case Success(mc) =>
      if mc.Role() == NormalRole then Step(m, [], Success(NotEnlisted))
      else
        var xid := BranchXid(t, qualifier);
        var attached := if mc.context.None? then EditorSet(jp, OutboundContext(t, xid)) else Success(jp);
        match attached
        case Failure(e) => Step(m, [], Failure(e))
        case Success(jp') =>
          var p := NewParticipant(t.rootXid, xid, InvocationOf(jp', ConfirmMethodName(jp)),
                                  InvocationOf(jp', CancelMethodName(jp)), jp.editor);
          var s := EnlistParticipant(m, p, env);
          Step(s.m, s.trace, if s.result.Failure? then Failure(s.result.error) else Success(Enlisted(p, jp')))
  }

  /** `participant.setStatus` through the reference the interceptor holds:
      every participant with the branch xid takes the status. Java changes
      the one object it enlisted; the two agree only because every branch
      gets a fresh xid, which the model does not enforce. */
  function Mark(ps: seq<Participant>, branch: Xid, s: ParticipantStatus): (r: seq<Participant>)
    ensures |r| == |ps|
    ensures forall i :: 0 <= i < |ps| ==> r[i] == (if ps[i].xid == branch then ps[i].WithStatus(s) else ps[i])
  {
    seq(|ps|, i requires 0 <= i < |ps| => if ps[i].xid == branch then ps[i].WithStatus(s) else ps[i])
  }

  /** The enlisting transaction is still at its depth after the call. */
  predicate StillAt(m: Manager, depth: nat, x: Xid) {
    0 < depth <= |m.stack| && m.stack[depth - 1].xid == x
  }

  /** Records the try outcome on the participant, in the enlisting
      transaction when it is still on the stack. A transaction that has left
      the stack is not observable, so nothing else is recorded. */
  function RecordOutcome(m: Manager, depth: nat, x: Xid, branch: Xid, s: ParticipantStatus): (r: Manager)
    ensures |r.stack| == |m.stack| && r.store == m.store
    ensures forall i :: 0 <= i < |m.stack| && i != depth - 1 ==> r.stack[i] == m.stack[i]
    ensures StillAt(m, depth, x) ==>
              var t := r.stack[depth - 1];
              && t.(participants := m.stack[depth - 1].participants) == m.stack[depth - 1]
              && t.participants == Mark(m.stack[depth - 1].participants, branch, s)
    ensures !StillAt(m, depth, x) ==> r == m
  {
    if StillAt(m, depth, x) then
      var t := m.stack[depth - 1];
      m.(stack := m.stack[depth - 1 := t.(participants := Mark(t.participants, branch, s))])
    else m
  }

  /** Every participant with the branch xid has the given status. */
  predicate AllMarked(ps: seq<Participant>, branch: Xid, s: ParticipantStatus) {
    forall i :: 0 <= i < |ps| && ps[i].xid == branch ==> ps[i].status == s
  }

  /** The call after its participant was enlisted: it proceeds with the
      attached context, its result or exception is passed on unchanged, and
      the participant is then TRY_SUCCESS or TRY_FAILED accordingly. */
  function TryEnlisted(m: Manager, depth: nat, x: Xid, branch: Xid, jp: JoinPoint, body: Body): (r: Step<Value>)
    ensures r.trace == Proceed(m, jp, body).trace
    ensures r.result == body(m, jp).result
    ensures |r.m.stack| == |body(m, jp).m.stack| && r.m.store == body(m, jp).m.store
    ensures StillAt(body(m, jp).m, depth, x) ==>
              AllMarked(r.m.stack[depth - 1].participants, branch,
                        if r.result.Success? then ParticipantStatus.TrySuccess else ParticipantStatus.TryFailed)
  {
    var s := Proceed(m, jp, body);
    var outcome := if s.result.Success? then ParticipantStatus.TrySuccess else ParticipantStatus.TryFailed;
    Step(RecordOutcome(s.m, depth, x, branch, outcome), s.trace, s.result)
  }

  /** `interceptTransactionContextMethod`: outside a trying transaction, or
      for a NORMAL call, the call just proceeds; otherwise the participant is
      enlisted before the call runs, and a failed enlistment stops the call. */
  function InterceptContextMethod(m: Manager, jp: JoinPoint, qualifier: nat, body: Body, env: Env): (r: Step<Value>)
    requires jp.WellFormed()
    ensures !(m.stack != [] && Top(m).status == TransactionStatus.Trying) ==> r == Proceed(m, jp, body)
    ensures m.stack != [] && Top(m).status == TransactionStatus.Trying ==>
              var e := Enlist(m, jp, qualifier, env);
              && (e.result.Failure? ==> r == Step(e.m, e.trace, Failure(e.result.error)))
              && (e.result == Success(NotEnlisted) ==> r == Proceed(m, jp, body))
              && (e.result.Success? && e.result.value.Enlisted? ==>
                    var t := TryEnlisted(e.m, |m.stack|, Top(m).xid, e.result.value.p.xid, e.result.value.jp, body);
                    r == Step(t.m, e.trace + t.trace, t.result))
  {
    if m.stack != [] && Top(m).status == TransactionStatus.Trying then
      var e := Enlist(m, jp, qualifier, env);
      match e.result
      case Failure(err) => Step(e.m, e.trace, Failure(err))
      case Success(NotEnlisted) => Proceed(m, jp, body)
      case Success(Enlisted(p, jp')) =>
        var t := TryEnlisted(e.m, |m.stack|, Top(m).xid, p.xid, jp', body);
        Step(t.m, e.trace + t.trace, t.result)
    else Proceed(m, jp, body)
  }
}
