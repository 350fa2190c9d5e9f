/** The transaction aggregate: its participants in enlistment order and the
    commit/rollback fan-out that skips participants already finished. */
module Transactions {
  import opened Wrappers
  import opened Errors
  import opened Status
  import opened Context
  import opened Participants
  import opened Terminator

  /** Creation and update times and the attachment map are not modelled. */
  datatype Transaction = Transaction(
    xid: Xid,
    rootXid: Option<Xid>,
    status: TransactionStatus,
    kind: TransactionType,
    participants: seq<Participant>,
    retriedCount: nat,
    version: nat)
  {
    /** Appends a participant; earlier participants keep their order. */
    function Enlist(p: Participant): (t: Transaction)
      ensures |t.participants| == |participants| + 1
      ensures t.participants[..|participants|] == participants
      ensures t.participants[|participants|] == p
      ensures t.(participants := participants) == this
    {
      this.(participants := participants + [p])
    }

    /** The version moves up by exactly one; nothing else changes. */
    function UpdateVersion(): (t: Transaction)
      ensures t.version == version + 1
      ensures t.(version := version) == this
    {
      this.(version := version + 1)
    }

    /** The retry counter moves up by exactly one; nothing else changes. */
    function AddRetriedCount(): (t: Transaction)
      ensures t.retriedCount == retriedCount + 1
      ensures t.(retriedCount := retriedCount) == this
    {
      this.(retriedCount := retriedCount + 1)
    }

    /** Some participant's try failed. */
    predicate IsTryFailed() {
      AnyTryFailed(participants)
    }
  }

  /** The scan behind `isTryFailed`, front to back. */
  function AnyTryFailed(ps: seq<Participant>): (r: bool)
    ensures r <==> exists i :: 0 <= i < |ps| && ps[i].status == ParticipantStatus.TryFailed
  {
    if ps == [] then false
    else if ps[0].status == ParticipantStatus.TryFailed then true
    else
      var r := AnyTryFailed(ps[1..]);
      assert forall i :: 1 <= i < |ps| ==> ps[i] == ps[1..][i - 1];
      r
  }

  /** A branch transaction built from an inbound context. */
  function NewBranch(ctx: TransactionContext): (t: Transaction)
    ensures t.xid == ctx.xid && t.rootXid == ctx.rootXid
    ensures t.status == TransactionStatus.Trying && t.kind == Branch
    ensures t.participants == [] && t.retriedCount == 0 && t.version == 0
  {
    Transaction(ctx.xid, ctx.rootXid, TransactionStatus.Trying, Branch, [], 0, 0)
  }

  /** A transaction of the given type under a newly generated xid; a ROOT
      transaction is its own root. */
  function NewTransaction(xid: Xid, kind: TransactionType): (t: Transaction)
    ensures t.xid == xid && t.kind == kind && t.status == TransactionStatus.Trying
    ensures t.rootXid == (if kind == Root then Some(xid) else None)
    ensures t.participants == [] && t.retriedCount == 0 && t.version == 0
  {
    Transaction(xid, if kind == Root then Some(xid) else None, TransactionStatus.Trying, kind, [], 0, 0)
  }

  predicate IsDone(p: Participant, phase: Phase) {
    p.status == phase.Done()
  }

  predicate AllDone(ps: seq<Participant>, phase: Phase) {
    forall i :: 0 <= i < |ps| ==> IsDone(ps[i], phase)
  }

  /** The participants a phase still has to reach, in order. */
  function Pending(ps: seq<Participant>, phase: Phase): seq<Participant> {
    if ps == [] then []
    else (if IsDone(ps[0], phase) then [] else [ps[0]]) + Pending(ps[1..], phase)
  }

  /** The requests a phase sends to the given participants, in order. */
  function Calls(ps: seq<Participant>, phase: Phase): seq<Call> {
    if ps == [] then [] else [CallFor(ps[0], phase)] + Calls(ps[1..], phase)
  }

  lemma {:induction false} CallsAppend(a: seq<Participant>, b: seq<Participant>, phase: Phase)
    ensures Calls(a + b, phase) == Calls(a, phase) + Calls(b, phase)
    decreases |a|
  {
    if a != [] {
      assert (a + b)[1..] == a[1..] + b;
      CallsAppend(a[1..], b, phase);
    } else {
      assert a + b == b;
    }
  }

  lemma {:induction false} PendingAppend(a: seq<Participant>, b: seq<Participant>, phase: Phase)
    ensures Pending(a + b, phase) == Pending(a, phase) + Pending(b, phase)
    decreases |a|
  {
    if a != [] {
      assert (a + b)[1..] == a[1..] + b;
      PendingAppend(a[1..], b, phase);
    } else {
      assert a + b == b;
    }
  }

  /** The result of one fan-out: the participants afterwards, the requests
      sent, and the exception that stopped it, if any. */
  datatype FanOut = FanOut(participants: seq<Participant>, invoked: seq<Call>, error: Option<Error>)

  /** Each participant is either untouched or marked done for the phase. */
  predicate Settles(ps: seq<Participant>, after: seq<Participant>, phase: Phase) {
    && |after| == |ps|
    && forall i :: 0 <= i < |ps| ==> after[i] == ps[i] || after[i] == ps[i].WithStatus(phase.Done())
  }

  /** The fan-out stopped at participant k: those before k are done, k and
      those after it are as they were, and the request to k was the last one
      sent and the one that failed. */
  predicate StoppedAt(ps: seq<Participant>, phase: Phase, invoke: Invoker, r: FanOut, k: int) {
    && 0 <= k < |ps|
    && !IsDone(ps[k], phase)
    && |r.participants| == |ps|
    && AllDone(r.participants[..k], phase)
    && r.participants[k..] == ps[k..]
    && r.invoked == Calls(Pending(ps[..k + 1], phase), phase)
    && r.error.Some?
    && r.error == Dispatch(CallFor(ps[k], phase), invoke)
  }

  /** The fan-out of `Transaction.commit` (phase Confirm) and
      `Transaction.rollback` (phase Cancel): participants are visited in
      order, those already done are skipped, and the first failing request
      stops the walk. */
  function Run(ps: seq<Participant>, phase: Phase, invoke: Invoker): (r: FanOut)
    ensures Settles(ps, r.participants, phase)
    ensures r.error.None? ==> AllDone(r.participants, phase) && r.invoked == Calls(Pending(ps, phase), phase)
    ensures r.error.Some? ==> exists k :: StoppedAt(ps, phase, invoke, r, k)
    decreases |ps|
  {
    if ps == [] then FanOut([], [], None)
    else
      var p := ps[0];
      if IsDone(p, phase) then
        var rest := Run(ps[1..], phase, invoke);
        var r := FanOut([p] + rest.participants, rest.invoked, rest.error);
        LiftStep(ps, phase, invoke, rest, r);
        r
      else
        var c := CallFor(p, phase);
        var outcome := Dispatch(c, invoke);
        if outcome.Some? then
          var r := FanOut(ps, [c], outcome);
          assert ps[..1] == [p];
          assert StoppedAt(ps, phase, invoke, r, 0);
          r
        else
          var rest := Run(ps[1..], phase, invoke);
          var r := FanOut([p.WithStatus(phase.Done())] + rest.participants, [c] + rest.invoked, rest.error);
          LiftStep(ps, phase, invoke, rest, r);
          r
  }

  /** What the walk past the first participant adds to the tail's result. */
  predicate Extends(ps: seq<Participant>, phase: Phase, invoke: Invoker, rest: FanOut, r: FanOut)
    requires ps != []
  {
    && (IsDone(ps[0], phase) || Dispatch(CallFor(ps[0], phase), invoke).None?)
    && r.participants == [if IsDone(ps[0], phase) then ps[0] else ps[0].WithStatus(phase.Done())] + rest.participants
    && r.invoked == (if IsDone(ps[0], phase) then [] else [CallFor(ps[0], phase)]) + rest.invoked
    && r.error == rest.error
  }

  /** The tail's guarantees carry over to the whole sequence. */
  lemma LiftStep(ps: seq<Participant>, phase: Phase, invoke: Invoker, rest: FanOut, r: FanOut)
    requires ps != []
    requires Settles(ps[1..], rest.participants, phase)
    requires rest.error.None? ==> rest.invoked == Calls(Pending(ps[1..], phase), phase)
    requires rest.error.Some? ==> exists k :: StoppedAt(ps[1..], phase, invoke, rest, k)
    requires Extends(ps, phase, invoke, rest, r)
    ensures Settles(ps, r.participants, phase)
    ensures r.error.None? ==> r.invoked == Calls(Pending(ps, phase), phase)
    ensures r.error.Some? ==> exists k :: StoppedAt(ps, phase, invoke, r, k)
  {
    LiftSettles(ps, phase, invoke, rest, r);
    if r.error.Some? {
      var k :| StoppedAt(ps[1..], phase, invoke, rest, k);
      LiftStop(ps, phase, invoke, rest, r, k);
    } else {
      LiftCalls(ps, phase, invoke, rest, r);
    }
  }

  /** Each participant of the whole is left or finished, as in the tail. */
  lemma LiftSettles(ps: seq<Participant>, phase: Phase, invoke: Invoker, rest: FanOut, r: FanOut)
    requires ps != []
    requires Settles(ps[1..], rest.participants, phase)
    requires Extends(ps, phase, invoke, rest, r)
    ensures Settles(ps, r.participants, phase)
  {
    forall i | 0 <= i < |ps|
      ensures r.participants[i] == ps[i] || r.participants[i] == ps[i].WithStatus(phase.Done())
    {
      if i > 0 {
        assert r.participants[i] == rest.participants[i - 1] && ps[i] == ps[1..][i - 1];
      }
    }
  }

  /** A fan-out that went through sends the head's request, if pending,
      before the tail's. */
  lemma LiftCalls(ps: seq<Participant>, phase: Phase, invoke: Invoker, rest: FanOut, r: FanOut)
    requires ps != []
    requires rest.invoked == Calls(Pending(ps[1..], phase), phase)
    requires Extends(ps, phase, invoke, rest, r)
    ensures r.invoked == Calls(Pending(ps, phase), phase)
  {
    var head := if IsDone(ps[0], phase) then [] else [ps[0]];
    assert Pending(ps, phase) == head + Pending(ps[1..], phase);
    CallsAppend(head, Pending(ps[1..], phase), phase);
  }

  /** A stop at k in the tail is a stop at k + 1 in the whole sequence. */
  lemma LiftStop(ps: seq<Participant>, phase: Phase, invoke: Invoker, rest: FanOut, r: FanOut, k: int)
    requires ps != []
    requires StoppedAt(ps[1..], phase, invoke, rest, k)
    requires Extends(ps, phase, invoke, rest, r)
    ensures StoppedAt(ps, phase, invoke, r, k + 1)
  {
    LiftStopCalls(ps, phase, invoke, rest, r, k);
    LiftStopParticipants(ps, phase, invoke, rest, r, k);
    assert ps[k + 1] == ps[1..][k];
  }

  /** Before a stop at k in the tail, the head is done as well; from it on,
      nothing changed. */
  lemma LiftStopParticipants(ps: seq<Participant>, phase: Phase, invoke: Invoker, rest: FanOut, r: FanOut, k: int)
    requires ps != []
    requires StoppedAt(ps[1..], phase, invoke, rest, k)
    requires Extends(ps, phase, invoke, rest, r)
    ensures |r.participants| == |ps|
    ensures AllDone(r.participants[..k + 1], phase)
    ensures r.participants[k + 1..] == ps[k + 1..]
  {
    assert r.participants[..k + 1] == [r.participants[0]] + rest.participants[..k];
    assert r.participants[k + 1..] == rest.participants[k..];
    assert ps[k + 1..] == ps[1..][k..];
  }

  /** The requests up to a stop at k in the tail, with the head's request
      in front, are the requests up to participant k + 1 of the whole. */
  lemma LiftStopCalls(ps: seq<Participant>, phase: Phase, invoke: Invoker, rest: FanOut, r: FanOut, k: int)
    requires ps != [] && 0 <= k < |ps| - 1
    requires rest.invoked == Calls(Pending(ps[1..][..k + 1], phase), phase)
    requires Extends(ps, phase, invoke, rest, r)
    ensures r.invoked == Calls(Pending(ps[..k + 2], phase), phase)
  {
    var head := if IsDone(ps[0], phase) then [] else [ps[0]];
    assert ps[..k + 2] == [ps[0]] + ps[1..][..k + 1];
    assert ps[..k + 2][1..] == ps[1..][..k + 1];
    assert Pending(ps[..k + 2], phase) == head + Pending(ps[1..][..k + 1], phase);
    CallsAppend(head, Pending(ps[1..][..k + 1], phase), phase);
  }

  /** The outcome of completing a transaction: the transaction afterwards,
      the requests sent, and the exception raised, if any. */
  datatype Completion = Completion(tx: Transaction, invoked: seq<Call>, error: Option<Error>)

  /** `Transaction.commit` (Confirm) or `Transaction.rollback` (Cancel): only
      the participants change. */
  function Complete(t: Transaction, phase: Phase, invoke: Invoker): (c: Completion)
    ensures c.tx == t.(participants := c.tx.participants)
    ensures Settles(t.participants, c.tx.participants, phase)
    ensures c.error.None? ==> AllDone(c.tx.participants, phase)
                              && c.invoked == Calls(Pending(t.participants, phase), phase)
    ensures c.error.Some? ==> exists k :: StoppedAt(t.participants, phase, invoke,
                                                    FanOut(c.tx.participants, c.invoked, c.error), k)
  {
    var f := Run(t.participants, phase, invoke);
    Completion(t.(participants := f.participants), f.invoked, f.error)
  }
}
