/** A participant: one enlisted branch with its confirm and cancel invocations. */
module Participants {
  import opened Wrappers
  import opened Status
  import opened Context

  datatype Participant = Participant(
    rootXid: Option<Xid>,
    xid: Xid,
    confirmInvocation: InvocationContext,
    cancelInvocation: InvocationContext,
    editor: EditorKind,
    status: ParticipantStatus)
  {
    /** The confirm request: the participant's ids, status CONFIRMING and the
        participant's status as it is now. */
    function CommitCall(): (c: Call)
      ensures c.ctx == TransactionContext(rootXid, xid, TransactionStatus.Confirming.Id(), status)
      ensures c.invocation == confirmInvocation && c.editor == editor
    {
      Call(TransactionContext(rootXid, xid, TransactionStatus.Confirming.Id(), status), confirmInvocation, editor)
    }

    /** The cancel request: the same ids with status CANCELLING. */
    function RollbackCall(): (c: Call)
      ensures c.ctx == TransactionContext(rootXid, xid, TransactionStatus.Cancelling.Id(), status)
      ensures c.invocation == cancelInvocation && c.editor == editor
    {
      Call(TransactionContext(rootXid, xid, TransactionStatus.Cancelling.Id(), status), cancelInvocation, editor)
    }

    /** `setStatus`: only the status changes, and `getStatus` then reads it back. */
    function WithStatus(s: ParticipantStatus): (p: Participant)
      ensures p.status == s
      ensures p.(status := status) == this
    {
      this.(status := s)
    }
  }

  /** A freshly built participant: everything given is stored, status TRYING. */
  function NewParticipant(rootXid: Option<Xid>, xid: Xid, confirm: InvocationContext,
                          cancel: InvocationContext, editor: EditorKind): (p: Participant)
    ensures p.status == ParticipantStatus.Trying
    ensures p.rootXid == rootXid && p.xid == xid && p.editor == editor
    ensures p.confirmInvocation == confirm && p.cancelInvocation == cancel
  {
    Participant(rootXid, xid, confirm, cancel, editor, ParticipantStatus.Trying)
  }

  /** The two completion phases of the fan-out. */
  datatype Phase = Confirm | Cancel {

    /** The participant status that marks the phase as done for a participant. */
    function Done(): ParticipantStatus {
      if this == Confirm then ParticipantStatus.ConfirmSuccess else ParticipantStatus.CancelSuccess
    }

    /** The transaction status the phase runs under. */
    function Status(): TransactionStatus {
      if this == Confirm then TransactionStatus.Confirming else TransactionStatus.Cancelling
    }
  }

  /** The request a phase sends to a participant. */
  function CallFor(p: Participant, phase: Phase): Call {
    if phase == Confirm then p.CommitCall() else p.RollbackCall()
  }

  /** Confirm and cancel requests of one participant differ only in the status
      they carry and the invocation they name. */
  lemma CallsShareIdentity(p: Participant)
    ensures p.CommitCall().ctx.(status := 0) == p.RollbackCall().ctx.(status := 0)
    ensures p.CommitCall().ctx.status != p.RollbackCall().ctx.status
    ensures p.CommitCall().ctx.participantStatus == p.status
  {
  }
}
