/** The framework's error taxonomy (`DatabaseError`) and the classification
    performed by the `DatabaseException` constructors: which `Error` an
    exception carries when it is raised directly, when it reports a driver
    failure, and when it wraps another exception. */
module DatabaseErrors {
  import opened Common

  /** The kinds of database failure, with the numeric values of the enum. */
  datatype DatabaseError =
    | InnerError
    | Succeeded
    | NotFound
    | NotWriteable
    | FoundTooMuch
    | ArgumentNotValid
    | NotMatch
    | TransactionError
    | TableCreateError
    | MigrateError
    | NotATableModel
    | TransactionConnectionIsNull

  function Code(e: DatabaseError): (r: int)
    ensures 0 <= r <= 11
    ensures e == InnerError <==> r == 0
  {
    match e
    case InnerError => 0
    case Succeeded => 1
    case NotFound => 2
    case NotWriteable => 3
    case FoundTooMuch => 4
    case ArgumentNotValid => 5
    case NotMatch => 6
    case TransactionError => 7
    case TableCreateError => 8
    case MigrateError => 9
    case NotATableModel => 10
    case TransactionConnectionIsNull => 11
  }

  function FromCode(n: int): (r: Option<DatabaseError>)
    ensures r.Some? <==> 0 <= n <= 11
  {
    if n == 0 then Some(InnerError)
    else if n == 1 then Some(Succeeded)
    else if n == 2 then Some(NotFound)
    else if n == 3 then Some(NotWriteable)
    else if n == 4 then Some(FoundTooMuch)
    else if n == 5 then Some(ArgumentNotValid)
    else if n == 6 then Some(NotMatch)
    else if n == 7 then Some(TransactionError)
    else if n == 8 then Some(TableCreateError)
    else if n == 9 then Some(MigrateError)
    else if n == 10 then Some(NotATableModel)
    else if n == 11 then Some(TransactionConnectionIsNull)
    else None
  }

  /** The enum values are distinct numbers: the code identifies the kind. */
  lemma CodeRoundTrip(e: DatabaseError)
    ensures FromCode(Code(e)) == Some(e)
  {
    match e
    case InnerError =>
    case Succeeded =>
    case NotFound =>
    case NotWriteable =>
    case FoundTooMuch =>
    case ArgumentNotValid =>
    case NotMatch =>
    case TransactionError =>
    case TableCreateError =>
    case MigrateError =>
    case NotATableModel =>
    case TransactionConnectionIsNull =>
  }

  /** `Error.ToString()`: the member's name. */
  function ErrorName(e: DatabaseError): (r: string)
    ensures r != ""
  {
    match e
    case InnerError => "InnerError"
    case Succeeded => "Succeeded"
    case NotFound => "NotFound"
    case NotWriteable => "NotWriteable"
    case FoundTooMuch => "FoundTooMuch"
    case ArgumentNotValid => "ArgumentNotValid"
    case NotMatch => "NotMatch"
    case TransactionError => "TransactionError"
    case TableCreateError => "TableCreateError"
    case MigrateError => "MigrateError"
    case NotATableModel => "NotATableModel"
    case TransactionConnectionIsNull => "TransactionConnectionIsNull"
  }

  /** Anything that can be thrown: a `DatabaseException`, or another exception
      known by its type name (driver errors, `KeyNotFoundException`, ...). */
  datatype Exception =
    | Database(ex: DatabaseException)
    | Other(typeName: string, message: string)

  datatype DatabaseException = DatabaseException(
    error: DatabaseError,
    entityName: NString,
    operation: NString,
    dbExceptionNumber: int32,
    dbExceptionSqlState: NString,
    message: NString,
    inner: Option<Exception>)

  /** `new DatabaseException()`: every field at its default. */
  function Empty(): (r: DatabaseException)
    ensures r.error == InnerError && r.inner.None? && r.entityName.None?
  {
    DatabaseException(InnerError, None, None, 0, None, None, None)
  }

  /** `new DatabaseException(message)`. */
  function FromMessage(message: NString): (r: DatabaseException)
    ensures r.error == InnerError && r.message == message && r.inner.None?
  {
    DatabaseException(InnerError, None, None, 0, None, message, None)
  }

  /** `new DatabaseException(message, innerException)`, the constructor all the
      others chain to: a wrapped `DatabaseException` hands on its `Error`,
      driver number and SQL state; anything else (or nothing) is `InnerError`. */
  function FromInner(message: NString, inner: Option<Exception>): (r: DatabaseException)
    ensures r.message == message && r.inner == inner
    ensures r.entityName.None? && r.operation.None?
    ensures inner.Some? && inner.value.Database? ==>
      && r.error == inner.value.ex.error
      && r.dbExceptionNumber == inner.value.ex.dbExceptionNumber
      && r.dbExceptionSqlState == inner.value.ex.dbExceptionSqlState
    ensures !(inner.Some? && inner.value.Database?) ==>
      r.error == InnerError && r.dbExceptionNumber == 0 && r.dbExceptionSqlState.None?
  {
    match inner
    case Some(Database(d)) =>
      DatabaseException(d.error, None, None, d.dbExceptionNumber, d.dbExceptionSqlState, message, inner)
    case _ =>
      DatabaseException(InnerError, None, None, 0, None, message, inner)
  }

  /** `new DatabaseException(innerException, entityName, message, operation)`:
      the error kind is inherited through the constructor chain. */
  function Wrapping(inner: Exception, entityName: string, message: string, operation: string): (r: DatabaseException)
    ensures r.entityName == Some(entityName) && r.operation == Some(operation)
    ensures r.inner == Some(inner) && r.message == Some(message)
    ensures r.error == (if inner.Database? then inner.ex.error else InnerError)
  {
    FromInner(Some(message), Some(inner)).(entityName := Some(entityName), operation := Some(operation))
  }

  /** `new DatabaseException(error, entityName, message, innerException, operation)`:
      the given kind wins over whatever the inner exception carried. */
  function WithError(error: DatabaseError, entityName: NString, message: NString,
                     inner: Option<Exception>, operation: NString): (r: DatabaseException)
    ensures r.error == error && r.entityName == entityName && r.operation == operation
    ensures r.inner == inner && r.message == message
    ensures inner.Some? && inner.value.Database? ==>
      r.dbExceptionNumber == inner.value.ex.dbExceptionNumber &&
      r.dbExceptionSqlState == inner.value.ex.dbExceptionSqlState
  {
    FromInner(message, inner).(error := error, entityName := entityName, operation := operation)
  }

  /** `new DatabaseException(dbExceptionNumber, dbExceptionSqlState, message, innerException)`:
      a driver failure, always classified `InnerError`. */
  function FromDriver(number: int32, sqlState: NString, message: NString, inner: Option<Exception>): (r: DatabaseException)
    ensures r.error == InnerError
    ensures r.dbExceptionNumber == number && r.dbExceptionSqlState == sqlState
    ensures r.inner == inner && r.entityName.None? && r.operation.None?
  {
    FromInner(message, inner).(dbExceptionNumber := number, dbExceptionSqlState := sqlState, error := InnerError)
  }

  /** The recurring `catch (Exception ex) when (!(ex is DatabaseException))`
      pattern of the orchestrator: a `DatabaseException` escapes untouched,
      anything else is wrapped with the given kind and context. */
  function Rethrow(ex: Exception, error: DatabaseError, entityName: NString, detail: string, operation: string): (r: Exception)
    ensures r.Database?
    ensures ex.Database? ==> r == ex
    ensures !ex.Database? ==> r.ex.error == error && r.ex.inner == Some(ex) && r.ex.entityName == entityName
  {
    if ex.Database? then ex
    else Database(WithError(error, entityName, Some(detail), Some(ex), Some(operation)))
  }

  /** Shorthand for the orchestrator's `throw new DatabaseException(kind, entity, message)`;
      a call that passes no message leaves it `None`. */
  function Raise(error: DatabaseError, entityName: NString, message: NString, operation: string): (r: Exception)
    ensures r.Database? && r.ex.error == error && r.ex.inner.None?
    ensures r.ex.entityName == entityName && r.ex.message == message
  {
    Database(WithError(error, entityName, message, None, Some(operation)))
  }

  /** The kind an exception reports: its `Error` for a `DatabaseException`. */
  function KindOf(ex: Exception): Option<DatabaseError>
  {
    if ex.Database? then Some(ex.ex.error) else None
  }

  /** A value stored in the exception's `Data` dictionary. */
  datatype DataValue = Text(text: NString) | Number(n: int)

  const DataKeys: set<string> := {"DatabaseError", "InnerNumber", "InnerSqlState", "EntityName", "Operation"}

  /** The `Data` getter: the base dictionary with the five diagnostic entries
      overwritten by the current field values. */
  function Data(e: DatabaseException, baseData: map<string, DataValue>): (r: map<string, DataValue>)
    ensures r.Keys == baseData.Keys + DataKeys
    ensures r["DatabaseError"] == Text(Some(ErrorName(e.error)))
    ensures r["InnerNumber"] == Number(e.dbExceptionNumber)
    ensures r["InnerSqlState"] == Text(e.dbExceptionSqlState)
    ensures r["EntityName"] == Text(e.entityName)
    ensures r["Operation"] == Text(e.operation)
    ensures forall k :: k in baseData && k !in DataKeys ==> r[k] == baseData[k]
  {
    baseData["DatabaseError" := Text(Some(ErrorName(e.error)))]
            ["InnerNumber" := Number(e.dbExceptionNumber)]
            ["InnerSqlState" := Text(e.dbExceptionSqlState)]
            ["EntityName" := Text(e.entityName)]
            ["Operation" := Text(e.operation)]
  }

  /** The "DatabaseError" entry of `Data` identifies the kind. */
  lemma {:induction false} DataIdentifiesError(e1: DatabaseException, e2: DatabaseException, b1: map<string, DataValue>, b2: map<string, DataValue>)
    requires Data(e1, b1)["DatabaseError"] == Data(e2, b2)["DatabaseError"]
    ensures e1.error == e2.error
  {
    ErrorNameInjective(e1.error, e2.error);
  }

  lemma ErrorNameInjective(a: DatabaseError, b: DatabaseError)
    requires ErrorName(a) == ErrorName(b)
    ensures a == b
  {
  }

  /** Wrapping a classified exception twice still reports the original kind:
      the classification survives any depth of `Wrapping`/`FromInner`. */
  lemma WrappingPreservesKind(inner: DatabaseException, e1: string, m1: string, o1: string, e2: string, m2: string, o2: string)
    ensures Wrapping(Database(Wrapping(Database(inner), e1, m1, o1)), e2, m2, o2).error == inner.error
  {
  }
}
