/** The outside world the coordinator acts on, and the record of what it did. */
module Effects {
  import opened Wrappers
  import opened Context
  import opened Terminator
  import opened Transactions
  import opened Repository

  /** The answers of the remote participants and of the repository. */
  datatype Env = Env(invoke: Invoker, faults: Faults)

  /** One externally visible action: a repository write attempted with the
      given transaction, a confirm/cancel request sent, or the business
      method entered with the given arguments and side-channel context. */
  datatype Event =
    | Wrote(op: Op, tx: Transaction)
    | Invoked(call: Call)
    | Proceeded(args: seq<Value>, attached: Option<TransactionContext>)

  /** The confirm/cancel requests in a trace, in order. */
  function Invocations(es: seq<Event>): seq<Call> {
    if es == [] then [] else Sent(es[0]) + Invocations(es[1..])
  }

  /** The request an event sends, if any. */
  function Sent(e: Event): seq<Call> {
    if e.Invoked? then [e.call] else []
  }

  /** A trace of one request event per call. */
  function InvokedAll(calls: seq<Call>): (es: seq<Event>)
    ensures |es| == |calls|
    ensures forall i :: 0 <= i < |calls| ==> es[i] == Invoked(calls[i])
    ensures Invocations(es) == calls
  {
    if calls == [] then []
    else
      var es := [Invoked(calls[0])] + InvokedAll(calls[1..]);
      assert es[1..] == InvokedAll(calls[1..]);
      es
  }

  lemma {:induction false} InvocationsAppend(a: seq<Event>, b: seq<Event>)
    ensures Invocations(a + b) == Invocations(a) + Invocations(b)
    decreases |a|
  {
    if a == [] {
      assert a + b == b;
    } else {
      assert (a + b)[0] == a[0] && (a + b)[1..] == a[1..] + b;
      InvocationsAppend(a[1..], b);
      assert Invocations(a + b) == Sent(a[0]) + Invocations(a[1..] + b);
    }
  }

  /** Writes send no requests. */
  lemma InvocationsOfWrites(es: seq<Event>)
    requires forall i :: 0 <= i < |es| ==> es[i].Wrote?
    ensures Invocations(es) == []
    decreases |es|
  {
    if es != [] {
      InvocationsOfWrites(es[1..]);
    }
  }
}
