/** The transaction context handed out by `BeginTransactionAsync` and the
    status machine its `CommitAsync` and `RollbackAsync` drive. Whether the
    engine's commit or rollback fails is an input. */
module Transactions {
  import opened Common
  import opened DatabaseErrors
  import opened Engines

  /** `TransactionStatus`, with the source's spelling. */
  datatype TransactionStatus = InTransaction | Commited | Rollbacked | Failed

  /** `Resources.TransactionAlreadyFinishedMessage` (its text is not part of this model). */
  const TransactionAlreadyFinishedMessage: string := "TransactionAlreadyFinishedMessage"

  /** The status after a call, and what it threw. */
  datatype Outcome = Outcome(status: TransactionStatus, thrown: Option<Exception>)

  /** Commit or rollback, ending in `done`: a context already `done` is left
      alone; one in any other finished state raises `TransactionError`; an
      open one ends `done`, or `Failed` (rethrowing) when the engine fails. */
  function Finish(status: TransactionStatus, done: TransactionStatus, operation: string, engineFault: Option<Exception>): (r: Outcome)
    requires done == Commited || done == Rollbacked
    ensures status == done ==> r == Outcome(done, None)
    ensures status != done && status != InTransaction ==>
      r.status == status && r.thrown.Some? && KindOf(r.thrown.value) == Some(TransactionError)
    ensures status != done && status != InTransaction ==>
      // the resource text lands in the entity-name slot; no message is passed
      r.thrown.value.ex.entityName == Some(TransactionAlreadyFinishedMessage) &&
      r.thrown.value.ex.message.None? && r.thrown.value.ex.inner.None? && r.thrown.value.ex.operation == Some(operation)
    ensures status == InTransaction && engineFault.None? ==> r == Outcome(done, None)
    ensures status == InTransaction && engineFault.Some? ==> r == Outcome(Failed, engineFault)
  {
    if status == done then Outcome(done, None)
    else if status != InTransaction then
      Outcome(status, Some(Raise(TransactionError, Some(TransactionAlreadyFinishedMessage), None, operation)))
    else if engineFault.Some? then Outcome(Failed, engineFault)
    else Outcome(done, None)
  }

  function CommitStep(status: TransactionStatus, engineFault: Option<Exception>): Outcome
  {
    Finish(status, Commited, "CommitAsync", engineFault)
  }

  function RollbackStep(status: TransactionStatus, engineFault: Option<Exception>): Outcome
  {
    Finish(status, Rollbacked, "RollbackAsync", engineFault)
  }

  /** A call on a context, with the engine's outcome for it. */
  datatype Call = Commit(commitFault: Option<Exception>) | Rollback(rollbackFault: Option<Exception>)

  function Step(status: TransactionStatus, call: Call): Outcome
  {
    match call
    case Commit(f) => CommitStep(status, f)
    case Rollback(f) => RollbackStep(status, f)
  }

  /** The status after a sequence of calls. */
  function Run(status: TransactionStatus, calls: seq<Call>): TransactionStatus
    decreases |calls|
  {
    if calls == [] then status else Run(Step(status, calls[0]).status, calls[1..])
  }

  /** A finished context is frozen: no later commit or rollback changes its
      status, whatever the engine does. */
  lemma {:induction false} FinishedIsFinal(status: TransactionStatus, calls: seq<Call>)
    requires status != InTransaction
    ensures Run(status, calls) == status
    decreases |calls|
  {
    if calls != [] {
      FinishedIsFinal(Step(status, calls[0]).status, calls[1..]);
    }
  }

  /** Only the first call on an open context takes effect: it ends the
      context, and the status it leaves is the final one. */
  lemma {:induction false} FirstCallDecides(call: Call, rest: seq<Call>)
    ensures Step(InTransaction, call).status != InTransaction
    ensures Run(InTransaction, [call] + rest) == Step(InTransaction, call).status
  {
    assert ([call] + rest)[1..] == rest;
    FinishedIsFinal(Step(InTransaction, call).status, rest);
  }

  /** Commit is idempotent, and so is rollback: repeating a successful call
      throws nothing and changes nothing. */
  lemma RepeatIsHarmless(f: Option<Exception>, g: Option<Exception>)
    ensures CommitStep(InTransaction, f).status == Commited <==> f.None?
    ensures RollbackStep(InTransaction, f).status == Rollbacked <==> f.None?
    ensures CommitStep(Commited, g) == Outcome(Commited, None)
    ensures RollbackStep(Rollbacked, g) == Outcome(Rollbacked, None)
  {
  }

  /** A commit the engine rejects leaves the context `Failed`, so the
      rollback a caller's catch block then attempts throws `TransactionError`
      instead of rolling back, and the commit's own exception is not its
      inner exception. */
  lemma CommitFailureThenRollback(e: Exception, g: Option<Exception>)
    ensures CommitStep(InTransaction, Some(e)) == Outcome(Failed, Some(e))
    ensures var r := RollbackStep(Failed, g);
      r.status == Failed && r.thrown.Some? && KindOf(r.thrown.value) == Some(TransactionError) &&
      r.thrown.value.ex.inner.None?
  {
  }

  class TransactionContext {
    var transaction: DbTransaction
    var status: TransactionStatus

    constructor (transaction: DbTransaction, status: TransactionStatus)
      ensures this.transaction == transaction && this.status == status
    {
      this.transaction := transaction;
      this.status := status;
    }
  }

  /** `BeginTransactionAsync(databaseName)`: a new open context on the
      database's master connection. */
  method BeginTransaction(engine: DatabaseEngine, db: string) returns (r: Result<TransactionContext, Exception>)
    ensures r.Success? <==> Engines.BeginTransaction(engine.connectionStrings, db).Success?
    ensures r.Success? ==> (fresh(r.value) && r.value.status == InTransaction &&
                            r.value.transaction == Engines.BeginTransaction(engine.connectionStrings, db).value)
    ensures r.Failure? ==> r.error == Engines.BeginTransaction(engine.connectionStrings, db).error
  {
    var tx := Engines.BeginTransaction(engine.connectionStrings, db);
    if tx.Failure? {
      return Failure(tx.error);
    }
    var context := new TransactionContext(tx.value, InTransaction);
    return Success(context);
  }

  /** `CommitAsync(context)`. */
  method CommitTransaction(context: TransactionContext, engineFault: Option<Exception>) returns (thrown: Option<Exception>)
    modifies context
    ensures Outcome(context.status, thrown) == CommitStep(old(context.status), engineFault)
    ensures old(context.status) != Commited && old(context.status) != InTransaction ==>
      context.status == old(context.status) && thrown.Some? && thrown.value.Database? &&
      thrown.value.ex.error == TransactionError && thrown.value.ex.entityName == Some(TransactionAlreadyFinishedMessage) &&
      thrown.value.ex.message.None?
    ensures context.transaction == old(context.transaction)
  {
    if context.status == Commited {
      return None;
    }
    if context.status != InTransaction {
      return Some(Raise(TransactionError, Some(TransactionAlreadyFinishedMessage), None, "CommitAsync"));
    }
    if engineFault.Some? {
      context.status := Failed;
      return engineFault;
    }
    context.status := Commited;
    return None;
  }

  /** `RollbackAsync(context)`. */
  method RollbackTransaction(context: TransactionContext, engineFault: Option<Exception>) returns (thrown: Option<Exception>)
    modifies context
    ensures Outcome(context.status, thrown) == RollbackStep(old(context.status), engineFault)
    ensures old(context.status) != Rollbacked && old(context.status) != InTransaction ==>
      context.status == old(context.status) && thrown.Some? && thrown.value.Database? &&
      thrown.value.ex.error == TransactionError && thrown.value.ex.entityName == Some(TransactionAlreadyFinishedMessage) &&
      thrown.value.ex.message.None?
    ensures context.transaction == old(context.transaction)
  {
    if context.status == Rollbacked {
      return None;
    }
    if context.status != InTransaction {
      return Some(Raise(TransactionError, Some(TransactionAlreadyFinishedMessage), None, "RollbackAsync"));
    }
    if engineFault.Some? {
      context.status := Failed;
      return engineFault;
    }
    context.status := Rollbacked;
    return None;
  }
}
