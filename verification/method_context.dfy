/** What an interceptor knows about an intercepted call: the method, its
    arguments, its @Compensable annotation, the context editor it uses, and
    from these the call's participant role. */
module MethodContext {
  import opened Wrappers
  import opened Errors
  import opened Context
  import ParameterEditor
  import opened Transactions
  import opened TransactionManager
  import opened Effects

  /** The attributes of the @Compensable annotation that the coordinator reads. */
  datatype Compensable = Compensable(
    confirmMethod: string,
    cancelMethod: string,
    asyncConfirm: bool,
    asyncCancel: bool)

  /** The intercepted method: its name and declaring class, its parameter
      types, which parameters carry the UniqueIdentity marker, and the default
      value of its return type (null, or the zero of a primitive). */
  datatype Method = Method(
    name: string,
    declaringType: string,
    parameterTypes: seq<ParamType>,
    uniqueIdentity: seq<bool>,
    nullValue: Value)

  /** An intercepted call. `sideChannel` is the context a non-parameter
      editor reads and writes (an RPC attachment, say). */
  datatype JoinPoint = JoinPoint(
    signature: Method,
    args: seq<Value>,
    compensable: Option<Compensable>,
    editor: EditorKind,
    sideChannel: Option<TransactionContext>)
  {
    /** What the JVM guarantees of a reflective call. */
    predicate WellFormed() {
      && WellTyped(signature.parameterTypes, args)
      && |signature.uniqueIdentity| == |signature.parameterTypes|
    }
  }

  /** The business method itself: it may run nested intercepted calls (and so
      change the stack and the repository), and returns or throws. */
  type Body = (Manager, JoinPoint) -> Step<Value>

  /** `proceed()`: runs the business method and records that it ran. */
  function Proceed(m: Manager, jp: JoinPoint, body: Body): (r: Step<Value>)
    ensures r.trace == [Proceeded(jp.args, jp.sideChannel)] + body(m, jp).trace
    ensures r.m == body(m, jp).m && r.result == body(m, jp).result
  {
    var s := body(m, jp);
    Step(s.m, [Proceeded(jp.args, jp.sideChannel)] + s.trace, s.result)
  }

  /** The editor's `get`: the parameter editor reads the context argument (and
      throws without a context parameter); the side channel is read as is. */
  function EditorGet(jp: JoinPoint): (r: Result<Option<TransactionContext>, Error>)
    requires jp.WellFormed()
    ensures r.Failure? <==> jp.editor == ByParameter && !ParameterEditor.HasContextParameter(jp.signature.parameterTypes)
    ensures jp.editor == BySideChannel ==> r == Success(jp.sideChannel)
  {
    if jp.editor == BySideChannel then Success(jp.sideChannel)
    else
      var g := ParameterEditor.Get(jp.signature.parameterTypes, jp.args);
      assert jp.editor == ByParameter;
      g
  }

  /** The editor's `set`: writes the context where `get` reads it. Nothing
      else about the call changes. */
  function EditorSet(jp: JoinPoint, ctx: TransactionContext): (r: Result<JoinPoint, Error>)
    requires jp.WellFormed()
    ensures r.Failure? <==> EditorGet(jp).Failure?
    ensures r.Success? ==> && r.value.WellFormed()
                           && r.value.(args := jp.args, sideChannel := jp.sideChannel) == jp
                           && EditorGet(r.value) == Success(Some(ctx))
  {
    if jp.editor == BySideChannel then Success(jp.(sideChannel := Some(ctx)))
    else match ParameterEditor.Set(jp.signature.parameterTypes, jp.args, ctx)
      case Success(args) =>
        ParameterEditor.GetAfterSet(jp.signature.parameterTypes, jp.args, ctx);
        Success(jp.(args := args))
      case Failure(e) => Failure(e)
  }

  /** A built `CompensableMethodContext`: the call, the current transaction
      (None when there is none) and the inbound context read by the editor. */
  datatype CompensableContext = CompensableContext(
    jp: JoinPoint,
    transaction: Option<Transaction>,
    context: Option<TransactionContext>)
  {
    /** `getParticipantRole`. */
    function Role(): ParticipantRole {
      RoleOf(jp.compensable.Some?, transaction.Some?, context.Some?)
    }
  }

  /** The constructor reads the inbound context through the editor, and so
      throws when the editor does. */
  function NewCompensableContext(jp: JoinPoint, t: Option<Transaction>): (r: Result<CompensableContext, Error>)
    requires jp.WellFormed()
    ensures r.Failure? <==> EditorGet(jp).Failure?
    ensures r.Success? ==> r.value.jp == jp && r.value.transaction == t && Success(r.value.context) == EditorGet(jp)
  {
    match EditorGet(jp)
    case Success(ctx) => Success(CompensableContext(jp, t, ctx))
    case Failure(e) => Failure(e)
  }

  datatype ParticipantRole = RootRole | ConsumerRole | ProviderRole | NormalRole

  /** The role of a call, from whether the method is annotated, whether a
      transaction is active on this thread, and whether a context came in. */
  function RoleOf(annotated: bool, active: bool, inbound: bool): (r: ParticipantRole)
    ensures r == RootRole <==> annotated && !active && !inbound
    ensures r == ProviderRole <==> annotated && !active && inbound
    ensures r == ConsumerRole <==> active && (annotated || !inbound)
    ensures r == NormalRole <==> !annotated && (!active || inbound)
  {
    if annotated && !active && !inbound then RootRole
    else if annotated && !active && inbound then ProviderRole
    else if annotated && active && !inbound then ConsumerRole
    else if annotated && active && inbound then ConsumerRole
    else if !annotated && active && !inbound then ConsumerRole
    else NormalRole
  }

  /** ROOT and PROVIDER start a transaction, so they only arise when none is
      active; and only annotated methods start one. */
  lemma StartingRolesNeedNoTransaction(annotated: bool, active: bool, inbound: bool)
    ensures RoleOf(annotated, active, inbound) in {RootRole, ProviderRole} <==> annotated && !active
  {
  }

  /** `getConfirmMethodName`: the annotation's confirm method, or the
      intercepted method's own name when there is no annotation. */
  function ConfirmMethodName(jp: JoinPoint): (r: string)
    ensures jp.compensable.Some? ==> r == jp.compensable.value.confirmMethod
    ensures jp.compensable.None? ==> r == jp.signature.name
  {
    if jp.compensable.None? then jp.signature.name else jp.compensable.value.confirmMethod
  }

  /** `getCancelMethodName`, symmetric to ConfirmMethodName. */
  function CancelMethodName(jp: JoinPoint): (r: string)
    ensures jp.compensable.Some? ==> r == jp.compensable.value.cancelMethod
    ensures jp.compensable.None? ==> r == jp.signature.name
  {
    if jp.compensable.None? then jp.signature.name else jp.compensable.value.cancelMethod
  }

  /** Without an annotation, confirm and cancel both name the intercepted method. */
  lemma UnannotatedNamesCoincide(jp: JoinPoint)
    requires jp.compensable.None?
    ensures ConfirmMethodName(jp) == CancelMethodName(jp) == jp.signature.name
  {
  }

  /** The first marked index at or after `from`, or -1. */
  function FirstMarkedFrom(marks: seq<bool>, from: nat): (r: int)
    requires from <= |marks|
    ensures -1 <= r < |marks|
    ensures r >= 0 ==> from <= r && marks[r]
    ensures forall i :: from <= i < |marks| && (r == -1 || i < r) ==> !marks[i]
    decreases |marks| - from
  {
    if from == |marks| then -1
    else if marks[from] then from
    else FirstMarkedFrom(marks, from + 1)
  }

  /** `getUniqueIdentity`: the argument of the first parameter carrying the
      UniqueIdentity marker, or null when no parameter carries it. */
  function UniqueIdentity(jp: JoinPoint): (r: Value)
    requires jp.WellFormed()
    ensures (forall i :: 0 <= i < |jp.args| ==> !jp.signature.uniqueIdentity[i]) ==> r == Null
    ensures (exists i :: 0 <= i < |jp.args| && jp.signature.uniqueIdentity[i]) ==>
              exists i :: && 0 <= i < |jp.args| && jp.signature.uniqueIdentity[i] && r == jp.args[i]
                          && forall j :: 0 <= j < i ==> !jp.signature.uniqueIdentity[j]
  {
    var i := FirstMarkedFrom(jp.signature.uniqueIdentity, 0);
    if i >= 0 then jp.args[i] else Null
  }
}
