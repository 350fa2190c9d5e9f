/** The dispatcher that runs a confirm or cancel invocation. Resolving the
    target and calling it reflectively are outside the model: `invoke` says
    whether the call returned (None) or threw (Some(e)). */
module Terminator {
  import opened Wrappers
  import opened Errors
  import opened Context
  import ParameterEditor

  /** The late-bound confirm/cancel effect, possibly failing. */
  type Invoker = Call -> Option<Error>

  /** The call as it reaches the target: for the parameter editor the context
      is written into the argument list, otherwise the arguments are kept. */
  function Injected(call: Call): (r: Result<Call, Error>)
    ensures call.editor == BySideChannel ==> r == Success(call)
    ensures r.Success? ==> r.value.(invocation := r.value.invocation.(args := call.invocation.args)) == call
    ensures call.editor == ByParameter ==>
              (r.Failure? <==> || !WellTyped(call.invocation.parameterTypes, call.invocation.args)
                               || !ParameterEditor.HasContextParameter(call.invocation.parameterTypes))
    ensures r.Failure? ==>
              r.error == (if WellTyped(call.invocation.parameterTypes, call.invocation.args)
                          then NoContextParameter else IllegalArgument)
    ensures r.Success? && call.editor == ByParameter ==>
              && WellTyped(call.invocation.parameterTypes, r.value.invocation.args)
              && ParameterEditor.Get(call.invocation.parameterTypes, r.value.invocation.args) == Success(Some(call.ctx))
  {
    var inv := call.invocation;
    if call.editor == BySideChannel then Success(call)
    else if !WellTyped(inv.parameterTypes, inv.args) then Failure(IllegalArgument)
    else match ParameterEditor.Set(inv.parameterTypes, inv.args, call.ctx)
      case Success(args) =>
        ParameterEditor.GetAfterSet(inv.parameterTypes, inv.args, call.ctx);
        Success(call.(invocation := inv.(args := args)))
      case Failure(e) => Failure(e)
  }

  /** Runs one invocation. An empty method name means there is nothing to
      call; every failure reaches the caller wrapped as a SystemError. */
  function Dispatch(call: Call, invoke: Invoker): (r: Option<Error>)
    ensures call.invocation.methodName == "" ==> r == None
    ensures r.Some? ==> r.value.SystemError?
    ensures call.invocation.methodName != "" && Injected(call).Failure? ==>
              r == Some(SystemError(Injected(call).error))
    ensures call.invocation.methodName != "" && Injected(call).Success? ==>
              var c := Injected(call).value;
              r == (if invoke(c).Some? then Some(SystemError(invoke(c).value)) else None)
  {
    if call.invocation.methodName == "" then None
    else match Injected(call)
      case Failure(e) => Some(SystemError(e))
      case Success(c) =>
        match invoke(c)
        case Some(e) => Some(SystemError(e))
        case None => None
  }
}
