/** Identifiers, the propagated transaction context and invocation descriptors. */
module Context {
  import opened Wrappers
  import opened Status

  /** A transaction identifier: a global transaction id plus a branch
      qualifier. Equality is by content, as for the byte arrays it stands for. */
  datatype Xid = Xid(globalId: nat, branchQualifier: nat)

  /** The payload carried to a remote participant. `status` is a
      TransactionStatus id; `participantStatus` is the caller's view of the
      participant. A null root xid is `None`. */
  datatype TransactionContext = TransactionContext(
    rootXid: Option<Xid>,
    xid: Xid,
    status: int,
    participantStatus: ParticipantStatus)

  /** A Java value: an argument or a return value. */
  datatype Value = Null | ContextValue(ctx: TransactionContext) | Plain(n: int)

  /** A declared parameter type: the TransactionContext class or another class. */
  datatype ParamType = ContextType | OtherType(name: string)

  /** What Java's type system guarantees of a reflective call: one argument per
      parameter, and a TransactionContext-typed slot holds null or a context. */
  predicate WellTyped(types: seq<ParamType>, args: seq<Value>) {
    && |types| == |args|
    && forall i :: 0 <= i < |args| && types[i] == ContextType ==> !args[i].Plain?
  }

  /** How a method's transaction context travels: in a TransactionContext-typed
      parameter, or through a side channel outside the argument list. */
  datatype EditorKind = ByParameter | BySideChannel

  /** A serialisable descriptor of a confirm or cancel method call. */
  datatype InvocationContext = InvocationContext(
    targetClass: string,
    methodName: string,
    parameterTypes: seq<ParamType>,
    args: seq<Value>)

  /** One request to the dispatcher: the context to inject, the method to
      call and the editor that injects the context. */
  datatype Call = Call(ctx: TransactionContext, invocation: InvocationContext, editor: EditorKind)
}
