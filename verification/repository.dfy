/** The transaction repository as a map from xid to transaction. Whether a
    write succeeds is decided outside the model (`Faults`): the optimistic
    version check and storage failures live in repository implementations
    that are not part of this model. */
module Repository {
  import opened Wrappers
  import opened Errors
  import opened Context
  import opened Transactions

  type Store = map<Xid, Transaction>

  datatype Op = Create | Update | Delete

  /** The outcome of each repository write: None when it succeeds, Some(e)
      when it throws e (OptimisticLock for a version conflict). */
  type Faults = (Op, Transaction) -> Option<Error>

  /** A successful create or update: the new store and the written
      transaction, whose version has moved on. */
  datatype Saved = Saved(store: Store, tx: Transaction)

  /** The store after an update of `tx`: the record under its xid is
      replaced; when there is none, the update matches no row and nothing is
      stored. */
  function Updated(s: Store, tx: Transaction): Store {
    if tx.xid in s then s[tx.xid := tx] else s
  }

  /** `create` or `update`. On success the written transaction carries the
      next version; a create stores it under its xid, an update replaces
      the record under its xid and never creates one. No other record
      changes. On failure nothing changes. */
  function Save(op: Op, s: Store, t: Transaction, faults: Faults): (r: Result<Saved, Error>)
    requires op != Delete
    ensures r.Failure? <==> faults(op, t).Some?
    ensures r.Failure? ==> r.error == faults(op, t).value
    ensures r.Success? ==> r.value.tx == t.UpdateVersion()
    ensures r.Success? && op == Create ==> r.value.store == s[t.xid := t.UpdateVersion()]
    ensures r.Success? && op == Update && t.xid in s ==> r.value.store == s[t.xid := t.UpdateVersion()]
    ensures r.Success? && op == Update && t.xid !in s ==> r.value.store == s
  {
    match faults(op, t)
    case Some(e) => Failure(e)
    case None =>
      var t' := t.UpdateVersion();
      Success(Saved(if op == Create then s[t.xid := t'] else Updated(s, t'), t'))
  }

  /** `delete`: on success the record under the transaction's xid is gone and
      no other record changes. */
  function Remove(s: Store, t: Transaction, faults: Faults): (r: Result<Store, Error>)
    ensures r.Failure? <==> faults(Delete, t).Some?
    ensures r.Failure? ==> r.error == faults(Delete, t).value
    ensures r.Success? ==> && r.value.Keys == s.Keys - {t.xid}
                           && forall x :: x in r.value ==> r.value[x] == s[x]
  {
    match faults(Delete, t)
    case Some(e) => Failure(e)
    case None => Success(s - {t.xid})
  }

  /** `findByXid`: the stored record, or null. */
  function FindByXid(s: Store, xid: Xid): (r: Option<Transaction>)
    ensures r.Some? <==> xid in s
    ensures r.Some? ==> r.value == s[xid]
  {
    if xid in s then Some(s[xid]) else None
  }
}
