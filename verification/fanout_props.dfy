/** What the skip-if-done fan-out promises across repeated runs: a second
    complete run sends nothing, and a retry after a failure resumes at the
    participant that failed. */
module FanOutProperties {
  import opened Wrappers
  import opened Status
  import opened Context
  import opened Participants
  import opened Terminator
  import opened Transactions

  lemma {:induction false} CallsLength(ps: seq<Participant>, phase: Phase)
    ensures |Calls(ps, phase)| == |ps|
    decreases |ps|
  {
    if ps != [] {
      CallsLength(ps[1..], phase);
    }
  }

  lemma {:induction false} PendingOfDone(ps: seq<Participant>, phase: Phase)
    requires AllDone(ps, phase)
    ensures Pending(ps, phase) == []
    decreases |ps|
  {
    if ps != [] {
      PendingOfDone(ps[1..], phase);
    }
  }

  /** On participants that are all done the fan-out sends nothing and changes nothing. */
  lemma {:induction false} RunOnDone(ps: seq<Participant>, phase: Phase, invoke: Invoker)
    requires AllDone(ps, phase)
    ensures Run(ps, phase, invoke) == FanOut(ps, [], None)
    decreases |ps|
  {
    if ps != [] {
      RunOnDone(ps[1..], phase, invoke);
      assert [ps[0]] + ps[1..] == ps;
    }
  }

  /** A second commit (or rollback) after a successful one invokes nothing and
      leaves the transaction as it is, whatever the remote side would answer. */
  lemma CompleteIdempotent(t: Transaction, phase: Phase, invoke: Invoker, invoke2: Invoker)
    requires Complete(t, phase, invoke).error.None?
    ensures var t1 := Complete(t, phase, invoke).tx;
            Complete(t1, phase, invoke2) == Completion(t1, [], None)
  {
    var t1 := Complete(t, phase, invoke).tx;
    RunOnDone(t1.participants, phase, invoke2);
  }

  /** A successful commit sends exactly one request to every participant not
      yet confirmed, in enlistment order, and none to the others. */
  lemma CompleteInvokesPendingOnce(t: Transaction, phase: Phase, invoke: Invoker)
    requires Complete(t, phase, invoke).error.None?
    ensures Complete(t, phase, invoke).invoked == Calls(Pending(t.participants, phase), phase)
    ensures forall i :: 0 <= i < |t.participants| ==> IsDone(Complete(t, phase, invoke).tx.participants[i], phase)
  {
  }

  /** How the pending list splits around the participant that failed. */
  lemma PendingAround(ps: seq<Participant>, phase: Phase, k: int)
    requires 0 <= k < |ps| && !IsDone(ps[k], phase)
    ensures Pending(ps[..k + 1], phase) == Pending(ps[..k], phase) + [ps[k]]
    ensures Pending(ps[k..], phase) == [ps[k]] + Pending(ps[k + 1..], phase)
    ensures Pending(ps, phase) == Pending(ps[..k], phase) + Pending(ps[k..], phase)
  {
    assert ps[..k + 1] == ps[..k] + [ps[k]];
    PendingAppend(ps[..k], [ps[k]], phase);
    assert [ps[k]][1..] == [];
    assert ps[k..][1..] == ps[k + 1..];
    assert ps == ps[..k] + ps[k..];
    PendingAppend(ps[..k], ps[k..], phase);
  }

  /** After a fan-out that stopped at participant k, what is left to do is
      exactly the pending participants from k on: those before k are done and
      a retry skips them. */
  lemma StopLeavesSuffix(ps: seq<Participant>, phase: Phase, invoke: Invoker, r: FanOut, k: int)
    requires StoppedAt(ps, phase, invoke, r, k)
    ensures Pending(r.participants, phase) == Pending(ps[k..], phase)
    ensures |r.invoked| == |Pending(ps[..k], phase)| + 1
    ensures r.invoked[..|r.invoked| - 1] == Calls(Pending(ps[..k], phase), phase)
    ensures |r.invoked| - 1 <= |Pending(ps, phase)|
    ensures Pending(r.participants, phase) == Pending(ps, phase)[|r.invoked| - 1..]
  {
    assert r.participants == r.participants[..k] + r.participants[k..];
    PendingAppend(r.participants[..k], r.participants[k..], phase);
    PendingOfDone(r.participants[..k], phase);
    PendingAround(ps, phase, k);
    CallsAppend(Pending(ps[..k], phase), [ps[k]], phase);
    CallsLength(Pending(ps[..k], phase), phase);
    assert Calls([ps[k]], phase) == [CallFor(ps[k], phase)];
  }

  /** `Transaction.commit` that failed at participant k leaves exactly the
      pending participants from k on for the next attempt. */
  lemma RetryResumes(ps: seq<Participant>, phase: Phase, invoke: Invoker)
    ensures var r := Run(ps, phase, invoke);
            r.error.Some? ==>
              && 1 <= |r.invoked| <= |Pending(ps, phase)| + 1
              && Pending(r.participants, phase) == Pending(ps, phase)[|r.invoked| - 1..]
  {
    var r := Run(ps, phase, invoke);
    if r.error.Some? {
      var k :| StoppedAt(ps, phase, invoke, r, k);
      StopLeavesSuffix(ps, phase, invoke, r, k);
    }
  }

  /** A failed fan-out followed by a successful retry: leaving out the one
      request that failed, the two runs together sent exactly one request to
      each participant that was pending at the start, in order. */
  lemma RetryCompletes(ps: seq<Participant>, phase: Phase, invoke: Invoker, invoke2: Invoker)
    ensures var r := Run(ps, phase, invoke);
            var r2 := Run(r.participants, phase, invoke2);
            r.error.Some? && r2.error.None? ==>
              && |r.invoked| >= 1
              && r.invoked[..|r.invoked| - 1] + r2.invoked == Calls(Pending(ps, phase), phase)
              && AllDone(r2.participants, phase)
  {
    var r := Run(ps, phase, invoke);
    var r2 := Run(r.participants, phase, invoke2);
    if r.error.Some? && r2.error.None? {
      var k :| StoppedAt(ps, phase, invoke, r, k);
      StopLeavesSuffix(ps, phase, invoke, r, k);
      PendingAround(ps, phase, k);
      CallsAppend(Pending(ps[..k], phase), Pending(ps[k..], phase), phase);
    }
  }
}
