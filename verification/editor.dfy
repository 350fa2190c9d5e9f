/** The parameter-based transaction-context editor: finds the first
    TransactionContext-typed parameter and reads or writes that argument. */
module ParameterEditor {
  import opened Wrappers
  import opened Errors
  import opened Context

  /** The index of the first TransactionContext parameter at or after `from`, or -1. */
  function PositionFrom(types: seq<ParamType>, from: nat): (r: int)
    requires from <= |types|
    ensures -1 <= r < |types|
    ensures r >= 0 ==> from <= r && types[r] == ContextType
    ensures forall i :: from <= i < |types| && (r == -1 || i < r) ==> types[i] != ContextType
    decreases |types| - from
  {
    if from == |types| then -1
    else if types[from] == ContextType then from
    else PositionFrom(types, from + 1)
  }

  /** The index of the first TransactionContext parameter, or -1 if there is none. */
  function Position(types: seq<ParamType>): (r: int)
    ensures -1 <= r < |types|
    ensures r >= 0 ==> types[r] == ContextType
    ensures forall i :: 0 <= i < |types| && (r == -1 || i < r) ==> types[i] != ContextType
  {
    PositionFrom(types, 0)
  }

  /** Whether the method declares a TransactionContext parameter at all. */
  predicate HasContextParameter(types: seq<ParamType>) {
    Position(types) >= 0
  }

  /** The last non-null context among the first n arguments, or null. */
  function LastContextBefore(args: seq<Value>, n: nat): (r: Option<TransactionContext>)
    requires n <= |args|
    ensures r.None? <==> forall i :: 0 <= i < n ==> !args[i].ContextValue?
    ensures r.Some? ==> exists i :: 0 <= i < n && args[i] == ContextValue(r.value)
                                    && forall j :: i < j < n ==> !args[j].ContextValue?
  {
    if n == 0 then None
    else if args[n - 1].ContextValue? then Some(args[n - 1].ctx)
    else LastContextBefore(args, n - 1)
  }

  /** The last non-null context among the arguments, or null. */
  function ContextFromArgs(args: seq<Value>): (r: Option<TransactionContext>)
    ensures r.None? <==> forall i :: 0 <= i < |args| ==> !args[i].ContextValue?
    ensures r.Some? ==> exists i :: 0 <= i < |args| && args[i] == ContextValue(r.value)
                                    && forall j :: i < j < |args| ==> !args[j].ContextValue?
  {
    LastContextBefore(args, |args|)
  }

  /** Reads the context argument; fails when the method has no context parameter. */
  function Get(types: seq<ParamType>, args: seq<Value>): (r: Result<Option<TransactionContext>, Error>)
    requires WellTyped(types, args)
    ensures r.Failure? <==> !HasContextParameter(types)
    ensures r.Failure? ==> r.error == NoContextParameter
    ensures r.Success? ==> var pos := Position(types);
                           (args[pos] == Null ==> r.value == None)
                           && (args[pos].ContextValue? ==> r.value == Some(args[pos].ctx))
  {
    var pos := Position(types);
    if pos >= 0 then
      match args[pos]
      case ContextValue(c) => Success(Some(c))
      case _ => Success(None)
    else Failure(NoContextParameter)
  }

  /** Writes the context argument; fails when the method has no context
      parameter. Every other argument is left as it was. */
  function Set(types: seq<ParamType>, args: seq<Value>, ctx: TransactionContext): (r: Result<seq<Value>, Error>)
    requires WellTyped(types, args)
    ensures r.Failure? <==> !HasContextParameter(types)
    ensures r.Failure? ==> r.error == NoContextParameter
    ensures r.Success? ==> && |r.value| == |args|
                           && r.value[Position(types)] == ContextValue(ctx)
                           && (forall i :: 0 <= i < |args| && i != Position(types) ==> r.value[i] == args[i])
                           && WellTyped(types, r.value)
  {
    var pos := Position(types);
    if pos >= 0 then Success(args[pos := ContextValue(ctx)]) else Failure(NoContextParameter)
  }

  /** Reading after writing gives back the context written. */
  lemma GetAfterSet(types: seq<ParamType>, args: seq<Value>, ctx: TransactionContext)
    requires WellTyped(types, args)
    requires HasContextParameter(types)
    ensures Set(types, args, ctx).Success?
    ensures Get(types, Set(types, args, ctx).value) == Success(Some(ctx))
  {
  }

  /** A method has a context parameter exactly when some parameter has the context type. */
  lemma HasContextParameterIff(types: seq<ParamType>)
    ensures HasContextParameter(types) <==> exists i :: 0 <= i < |types| && types[i] == ContextType
  {
  }
}
