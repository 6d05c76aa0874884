/** One schema migration step (`Migration`): the database it targets, the
    version it starts from and reaches, and the SQL it runs. The constructor
    accepts only single steps from a version of at least 1. */
module Migrations {
  import opened Common
  import opened DatabaseErrors

  /** The four properties have public setters, so a value of this type need
      not satisfy the constructor's checks (`SingleStep`). */
  datatype Migration = Migration(
    targetDatabaseName: string,
    oldVersion: int32,
    newVersion: int32,
    sqlStatement: string)

  /** What the constructor is meant to guarantee. */
  predicate SingleStep(m: Migration) {
    m.oldVersion >= 1 && m.newVersion == m.oldVersion + 1
  }

  const VersionTooLowMessage: string := "version should greater than 1."
  const NotSingleStepMessage: string := "Now days, you can only take 1 step further each time."

  /** The constructor as written: `newVersion != oldVersion + 1` is evaluated
      in unchecked 32-bit arithmetic, so `oldVersion + 1` wraps at the top of
      the range. */
  function NewMigrationAsWritten(targetDatabaseName: string, oldVersion: int32, newVersion: int32, sql: string): (r: Result<Migration, Exception>)
    ensures oldVersion < 1 ==> r == Failure(Other("ArgumentException", VersionTooLowMessage))
    ensures r.Success? <==> oldVersion >= 1 && newVersion == Wrap32(oldVersion + 1)
    ensures r.Success? ==> r.value == Migration(targetDatabaseName, oldVersion, newVersion, sql)
  {
    if oldVersion < 1 then Failure(Other("ArgumentException", VersionTooLowMessage))
    else if newVersion != Wrap32(oldVersion + 1) then Failure(Other("ArgumentException", NotSingleStepMessage))
    else Success(Migration(targetDatabaseName, oldVersion, newVersion, sql))
  }

  /** The wrap-around lets a "step" from the largest version back to the
      smallest one through the constructor. */
  lemma WrapAroundAccepted(target: string, sql: string)
    ensures var r := NewMigrationAsWritten(target, MaxInt32, MinInt32, sql);
      r.Success? && r.value.newVersion < r.value.oldVersion && !SingleStep(r.value)
  {
  }

  /** The constructor with the step checked over the integers, as its message
      intends: an old version below 1 and anything but a single step are
      rejected with `ArgumentException`; otherwise the four arguments are
      stored unchanged. The target name and SQL text are not validated. */
  function NewMigration(targetDatabaseName: string, oldVersion: int32, newVersion: int32, sql: string): (r: Result<Migration, Exception>)
    ensures oldVersion < 1 ==> r == Failure(Other("ArgumentException", VersionTooLowMessage))
    ensures oldVersion >= 1 && newVersion != oldVersion + 1 ==> r == Failure(Other("ArgumentException", NotSingleStepMessage))
    ensures r.Success? <==> oldVersion >= 1 && newVersion == oldVersion + 1
    ensures r.Success? ==> r.value == Migration(targetDatabaseName, oldVersion, newVersion, sql)
    ensures r.Success? ==> SingleStep(r.value) && r.value.newVersion >= 2
  {
    if oldVersion < 1 then Failure(Other("ArgumentException", VersionTooLowMessage))
    else if newVersion != oldVersion + 1 then Failure(Other("ArgumentException", NotSingleStepMessage))
    else Success(Migration(targetDatabaseName, oldVersion, newVersion, sql))
  }

  /** The two constructors differ only at the top of the 32-bit range. */
  lemma {:induction false} AsWrittenAgreesBelowMax(target: string, oldVersion: int32, newVersion: int32, sql: string)
    requires oldVersion < MaxInt32
    ensures NewMigrationAsWritten(target, oldVersion, newVersion, sql) == NewMigration(target, oldVersion, newVersion, sql)
  {
    assert Wrap32(oldVersion + 1) == oldVersion + 1;
  }
}
