/** Transaction and participant statuses, transaction types and their wire ids. */
module Status {
  import opened Wrappers
  import opened Errors

  /** The status of a transaction; `Id` is the integer carried on the wire. */
  datatype TransactionStatus = Trying | Confirming | Cancelling | TrySuccess | TryFailed {

    function Id(): (id: int)
      ensures id in ValidIds
    {
      match this
      case Trying => 1
      case Confirming => 2
      case Cancelling => 3
      case TrySuccess => 11
      case TryFailed => 12
    }
  }

  /** The ids `TransactionStatus.valueOf` accepts. */
  const ValidIds: set<int> := {1, 2, 3, 11, 12}

  /** Decodes a wire id; an unknown id is an IllegalArgumentException. */
  function ValueOf(id: int): (r: Result<TransactionStatus, Error>)
    ensures r.Success? <==> id in ValidIds
    ensures r.Success? ==> r.value.Id() == id
    ensures r.Failure? ==> r.error == IllegalArgument
  {
    match id
    case 1 => Success(TransactionStatus.Trying)
    case 2 => Success(TransactionStatus.Confirming)
    case 3 => Success(TransactionStatus.Cancelling)
    case 11 => Success(TransactionStatus.TrySuccess)
    case 12 => Success(TransactionStatus.TryFailed)
    case _ => Failure(IllegalArgument)
  }

  /** The status of one participant within its transaction. */
  datatype ParticipantStatus = Trying | TrySuccess | TryFailed | ConfirmSuccess | CancelSuccess

  datatype TransactionType = Root | Branch

  /** The five ids are the fixed constants of the enumeration. */
  lemma IdsAreFixed()
    ensures TransactionStatus.Trying.Id() == 1
    ensures TransactionStatus.Confirming.Id() == 2
    ensures TransactionStatus.Cancelling.Id() == 3
    ensures TransactionStatus.TrySuccess.Id() == 11
    ensures TransactionStatus.TryFailed.Id() == 12
  {
  }

  /** Decoding an encoded status gives the status back. */
  lemma ValueOfId(s: TransactionStatus)
    ensures ValueOf(s.Id()) == Success(s)
  {
  }

  /** Encoding a decoded valid id gives the id back. */
  lemma IdOfValueOf(id: int)
    requires id in ValidIds
    ensures ValueOf(id).Success? && ValueOf(id).value.Id() == id
  {
  }

  /** Distinct statuses have distinct ids. */
  lemma IdInjective(s: TransactionStatus, t: TransactionStatus)
    ensures s.Id() == t.Id() ==> s == t
  {
  }
}
