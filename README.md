# HB.Framework.Database in Dafny

This project models the core of `HB.Framework.Database`. That is the
database layer of the HB framework, with its MySQL and SQLite engines.
It covers the parts of the layer that decide things, not the driver calls.

- **Start-up and schema versioning** (`DefaultDatabase.InitializeAsync`).
  - Every configured database gets its own serializable transaction.
  - A brand-new database (no system table, version 0) gets the tables of its
    entities and version 1.
  - A database below the configured version gets its migration chain. The
    chain is filtered by database name ignoring case, ordered by old version,
    checked by `CheckMigration` and then executed. The new version is written
    last.
  - Any exception rolls the database back and leaves its stored state as it was.
- **Transaction contexts.** `BeginTransactionAsync`, `CommitAsync` and
  `RollbackAsync` drive the status machine `InTransaction`, `Commited`,
  `Rollbacked` and `Failed`.
- **CRUD decision logic** in `DefaultDatabase`:
  - the soft-delete conjuncts added to every read, including per join kind;
  - Scalar cardinality and the Page limit;
  - the Count conversion to 32 bits;
  - the write gate, and the optimistic-concurrency condition with its
    0/1/many row classification;
  - the in-memory `Version++`;
  - batch id and row-count verification.
- **The SQL template helpers** of `SQLBuilderHelper`: the INSERT, UPDATE and
  soft-DELETE templates, and the per-dialect temp-table and last-id statements.
- **The entity definition factory**: table and database naming with its
  precedence, file configuration overriding attributes, table flags, the
  memoising `GetDef` cache, and filtering by database.
- **`DatabaseException`**: how a constructor chooses or inherits its `Error`,
  and the five-entry `Data` projection.
- **Engines** (`MySQLEngine`, `SQLiteEngine`):
  - the master/read connection table keyed `name_1` and `name_0`;
  - the first default database name;
  - routing of commands, stored procedures and transactions;
  - the `tb_sys_info` system table as read by `GetSystemInfo` and written by
    `UpdateSystemVersion`.
- **`Migration`** construction and **`SystemInfo`** accessors.

Every driver effect is an input of the model. Such an input is an affected-row
count, the rows a reader returns, an id list, or a fault injected at a
statement, a commit or a rollback. Exceptions are values: `Result` and
`Option` carry them, and `Exception` distinguishes a `DatabaseException` from
any other exception type.

Files and modules:
| file | module | models |
|---|---|---|
| common.dfy | Common | 32/64-bit wrap-around, ASCII lower-casing, joins |
| errors.dfy | DatabaseErrors | `DatabaseError`, `DatabaseException` |
| migration.dfy | Migrations | `Migration` |
| system_info.dfy | SystemInfos | `SystemInfo`, Int32 parsing and printing |
| engine.dfy | Engines | MySQL/SQLite connection table, routing, system table |
| transaction.dfy | Transactions | `TransactionContext`, Commit/Rollback |
| entity_defs.dfy | EntityDefs | `DefaultDatabaseEntityDefFactory` |
| sql_builder.dfy | SqlBuilder | `SQLBuilderHelper` |
| crud.dfy | Crud | reads, writes, batches of `DefaultDatabase` |
| bootstrap.dfy | Bootstrap | `InitializeAsync` and everything under it |

Points where the code does something other than what its own names, messages
or documentation comments say; the model follows the code:

- `Migration`'s constructor (src/HB.Framework.Database/Migration.cs:29-32)
  rejects anything but `oldVersion + 1` ("only take 1 step further"), but
  computes it in unchecked 32-bit arithmetic, so the
  `int.MaxValue -> int.MinValue` "step" gets through (see Findings).
- `DatabaseError.ArgumentNotValid` exists
  (src/HB.Framework.Database/DatabaseError.cs:31), but the single writes
  validate with `ThrowIf.NotValid`
  (src/HB.Framework.Database/DefaultDatabase.cs:1012, 1052, 1097), which throws
  a validation exception that is not a `DatabaseException`. It is modelled as
  such.
- `InitializeAsync` documents only `DatabaseException`
  (src/HB.Framework.Database/DefaultDatabase.cs:71), but a failing
  `BeginTransactionAsync` inside it (:101, :188) has no catch block, so that
  failure propagates unwrapped and nothing is rolled back.
- `PageAsync(whereExpr, …)` never applies `whereExpr`. The resulting condition
  holds only the soft-delete conjunct, twice.
- `MigarateAsync` filters on `m.TargetSchema`
  (src/HB.Framework.Database/DefaultDatabase.cs:202), while `Migration` names
  the property `TargetDatabaseName` (src/HB.Framework.Database/Migration.cs:15).
  The model uses `TargetDatabaseName`.
- `GetSystemInfoAsync` calls a `SystemInfo(databaseName)` constructor and a
  `Set` method (src/HB.Framework.Database/DefaultDatabase.cs:297, 304, 308)
  that src/HB.Framework.Database/SystemInfo.cs does not declare. The model uses
  a constructor that sets `DatabaseName`, and models `Set` as `Add`.

## Model

| member | source | states |
|---|---|---|
| DatabaseErrors.Code | src/HB.Framework.Database/DatabaseError.cs:4-39 | the twelve kinds have codes 0..11, and `InnerError` alone is 0 |
| DatabaseErrors.FromCode | src/HB.Framework.Database/DatabaseError.cs:4-39 | exactly the codes 0..11 name a kind |
| DatabaseErrors.CodeRoundTrip | src/HB.Framework.Database/DatabaseError.cs:4-39 | decoding a kind's code gives the kind back |
| DatabaseErrors.ErrorName | src/HB.Framework.Database/DatabaseError.cs:4-39 | every kind has a non-empty name (the `ToString` stored in `Data`) |
| DatabaseErrors.ErrorNameInjective | src/HB.Framework.Database/DatabaseError.cs:4-39 | different kinds have different names |
| DatabaseErrors.Empty | src/HB.Framework.Database/DatabaseException.cs:70-72 | the parameterless exception is an `InnerError` with no inner exception and no entity |
| DatabaseErrors.FromMessage | src/HB.Framework.Database/DatabaseException.cs:74-76 | the message-only exception is an `InnerError` with that message |
| DatabaseErrors.FromInner | src/HB.Framework.Database/DatabaseException.cs:78-91 | wrapping a `DatabaseException` copies its error, number and SQL state; wrapping anything else, or nothing, gives `InnerError` |
| DatabaseErrors.Wrapping | src/HB.Framework.Database/DatabaseException.cs:26-34 | the (inner, entity, message) constructor inherits the inner error through the chain and records the entity and the operation |
| DatabaseErrors.WithError | src/HB.Framework.Database/DatabaseException.cs:36-42 | the explicit kind wins over the inner exception's; the entity, message and operation are stored |
| DatabaseErrors.FromDriver | src/HB.Framework.Database/DatabaseException.cs:44-49 | the driver constructor stores number and SQL state and forces `InnerError` |
| DatabaseErrors.WrappingPreservesKind | src/HB.Framework.Database/DatabaseException.cs:26-34 | wrapping twice still carries the innermost error kind |
| DatabaseErrors.Rethrow | src/HB.Framework.Database/DefaultDatabase.cs:499-509 | `catch … when (!(ex is DatabaseException))` leaves a `DatabaseException` unchanged and wraps anything else with the given kind, keeping it as the inner exception |
| DatabaseErrors.Raise | src/HB.Framework.Database/DatabaseException.cs:36-42 | a raised exception is a `DatabaseException` of the given kind with no inner exception |
| DatabaseErrors.Data | src/HB.Framework.Database/DatabaseException.cs:51-68 | `Data` keeps the base entries and holds the five keys with the current field values |
| DatabaseErrors.DataIdentifiesError | src/HB.Framework.Database/DatabaseException.cs:51-68 | equal `DatabaseError` entries mean equal error kinds |
| Migrations.NewMigrationAsWritten | src/HB.Framework.Database/Migration.cs:17-43 | as written: old version below 1 is rejected, and the step is checked with 32-bit wrap-around |
| Migrations.WrapAroundAccepted | src/HB.Framework.Database/Migration.cs:29-32 | the as-written constructor accepts `(int.MaxValue, int.MinValue)`, a step that goes down |
| Migrations.NewMigration | src/HB.Framework.Database/Migration.cs:17-43 | old version below 1 or anything but a single step is an `ArgumentException`; on success the four arguments are stored and `NewVersion = OldVersion + 1 >= 2` |
| Migrations.AsWrittenAgreesBelowMax | src/HB.Framework.Database/Migration.cs:29-32 | the two constructors agree whenever the old version is below `int.MaxValue` |
| SystemInfos.NatToString | src/HB.Framework.Database/SystemInfo.cs:36 | a version is stored as a non-empty string of decimal digits |
| SystemInfos.ParseInt32 | src/HB.Framework.Database/SystemInfo.cs:32 | `Convert.ToInt32` fails on the empty string and accepts only sign-or-digit first characters; any digit text, leading zeros included, with or without a sign, reads as its decimal value when it fits in 32 bits and is an `OverflowException` otherwise |
| SystemInfos.DigitsOfNat | src/HB.Framework.Database/SystemInfo.cs:32-36 | the digits printed for a number read back as that number |
| SystemInfos.Int32RoundTrip | src/HB.Framework.Database/SystemInfo.cs:28-38 | parsing the stored text of any 32-bit version gives that version back |
| SystemInfos.DatabaseNameOf | src/HB.Framework.Database/SystemInfo.cs:16-26 | the name reads the `DatabaseName` entry and fails exactly when it is missing |
| SystemInfos.VersionOf | src/HB.Framework.Database/SystemInfo.cs:28-38 | the version fails with a missing key, otherwise it is the parse of the `Version` entry |
| SystemInfos.VersionSetThenGet | src/HB.Framework.Database/SystemInfo.cs:28-38 | setting a version then reading it returns it, and the name is untouched |
| SystemInfos.AddVersionIsParsed | src/HB.Framework.Database/SystemInfo.cs:40-43 | `Add("Version", s)` is what the getter then parses |
| SystemInfos.DatabaseNameSetThenGet | src/HB.Framework.Database/SystemInfo.cs:16-26 | setting the name then reading it returns it, and the version is untouched |
| SystemInfos.SystemInfo.constructor | src/HB.Framework.Database/SystemInfo.cs:14 | a new system info has no entries |
| SystemInfos.SystemInfo.WithDatabaseName | src/HB.Framework.Database/DefaultDatabase.cs:297 | the named constructor holds just the database name |
| SystemInfos.SystemInfo.SetDatabaseName | src/HB.Framework.Database/SystemInfo.cs:22-25 | the setter overwrites the name entry and keeps the version |
| SystemInfos.SystemInfo.SetVersion | src/HB.Framework.Database/SystemInfo.cs:34-37 | the setter stores the decimal text; the version reads back and the name is kept |
| SystemInfos.SystemInfo.Add | src/HB.Framework.Database/SystemInfo.cs:40-43 | `Add` overwrites one entry and leaves every other entry as it was |
| Engines.KeysDistinct | src/HB.Infrastructure.MySQL/MySQLEngine.cs:53-65 | the `_1` and `_0` keys of different names never collide, and no master key is a read key |
| Engines.RegisterEffect | src/HB.Infrastructure.MySQL/MySQLEngine.cs:53-65 | one connection: a master overwrites `name_1` and fills `name_0` only if absent; a replica overwrites `name_0`; no other key changes |
| Engines.MasterEntry | src/HB.Infrastructure.MySQL/MySQLEngine.cs:42-67 | `name_1` exists exactly when some connection is a master of `name`, and holds the last such master |
| Engines.ReadEntryPresent | src/HB.Infrastructure.MySQL/MySQLEngine.cs:42-67 | `name_0` exists exactly when some connection names `name` |
| Engines.ReadEntryFromReplica | src/HB.Infrastructure.MySQL/MySQLEngine.cs:62-65 | the last replica of a name decides its read connection |
| Engines.ReadEntryFromMaster | src/HB.Infrastructure.MySQL/MySQLEngine.cs:57-60 | without replicas, the first master of a name is its read connection |
| Engines.TableKeys | src/HB.Infrastructure.MySQL/MySQLEngine.cs:42-67 | every key of the table is `_1` or `_0` of a configured name |
| Engines.FirstNameAppend | src/HB.Infrastructure.MySQL/MySQLEngine.cs:48-51 | the first-name scan over a concatenation continues from the first part's result |
| Engines.FirstNameSticks | src/HB.Infrastructure.MySQL/MySQLEngine.cs:48-51 | once set, the first default database name is never changed |
| Engines.FirstNameIsFirstNonEmpty | src/HB.Infrastructure.MySQL/MySQLEngine.cs:48-51 | the first default name is the first non-empty connection name; it is the empty name when every name is empty, and unset only without connections |
| Engines.Lookup | src/HB.Infrastructure.MySQL/MySQLEngine.cs:69-77 | `GetConnectionString` reads `db_1` or `db_0` by the master flag and fails with a missing key |
| Engines.Route | src/HB.Infrastructure.MySQL/MySQLEngine.cs:297-319 | Reader/Scalar use the transaction's connection when there is one, else the `useMaster` entry |
| Engines.NonQueryRoute | src/HB.Infrastructure.MySQL/MySQLEngine.cs:285-295 | a non-query without a transaction always uses the master |
| Engines.StoredProcedureRoute | src/HB.Infrastructure.SQLite/SQLiteEngine.cs:268-281 | SQLite stored procedures always throw `NotImplementedException`; MySQL ones route like commands |
| Engines.BeginTransaction | src/HB.Infrastructure.MySQL/MySQLEngine.cs:327-333 | a transaction is opened on the master connection, and fails when there is none |
| Engines.RoutingByConfiguration | src/HB.Infrastructure.SQLite/SQLiteEngine.cs:35-70 | from the configuration: transactions and non-queries need a master, reads need any connection of the name |
| Engines.SeedRows | src/HB.Infrastructure.MySQL/MySQLEngine.cs:159-168 | the create script seeds two rows |
| Engines.SetVersionRows | src/HB.Infrastructure.MySQL/MySQLEngine.cs:172 | the version update changes only the value of `Version` rows |
| Engines.UpdateSystemVersion | src/HB.Infrastructure.MySQL/MySQLEngine.cs:228-239 | version 1 creates and seeds the table (failing if it exists); another version updates the existing table |
| Engines.AddRowsUntouched | src/HB.Infrastructure.MySQL/MySQLEngine.cs:212-219 | rows with other names leave an entry as it was |
| Engines.AddRowsLastWins | src/HB.Infrastructure.MySQL/MySQLEngine.cs:212-219 | the last row with a name decides that entry |
| Engines.NewDatabaseIsVersionZero | src/HB.Infrastructure.MySQL/MySQLEngine.cs:195-204 | without a system table the info reads version 0 and the asked name |
| Engines.CreateThenRead | src/HB.Infrastructure.SQLite/SQLiteEngine.cs:244-255 | after `UpdateSystemVersion(db, 1)` on a new database, the info reads version 1 and name `db` |
| Engines.UpdateThenRead | src/HB.Infrastructure.SQLite/SQLiteEngine.cs:244-255 | after any update the info reads the written version and the same name |
| Engines.LastIndexOf | src/HB.Infrastructure.MySQL/MySQLEngine.cs:212-219 | the last row carrying a name |
| Engines.DatabaseEngine.constructor | src/HB.Infrastructure.MySQL/MySQLEngine.cs:33-40 | construction fills the connection table and the first default name from the configuration |
| Engines.DatabaseEngine.SetConnectionStrings | src/HB.Infrastructure.MySQL/MySQLEngine.cs:42-67 | the loop builds exactly the table of all connections and keeps a first name already set |
| Engines.DatabaseEngine.DatabaseNames | src/HB.Infrastructure.SQLite/SQLiteEngine.cs:197-200 | the database names in configuration order |
| Engines.DatabaseEngine.GetSystemInfo | src/HB.Infrastructure.SQLite/SQLiteEngine.cs:211-242 | a fresh info holding the name and version read from the system table (version 0 without one) |
| Transactions.Finish | src/HB.Framework.Database/DefaultDatabase.cs:1378-1416 | finishing twice is a no-op; another finished status is a `TransactionError` whose entity-name slot holds the already-finished text and whose message is empty; an engine fault sets `Failed` and rethrows |
| Transactions.FinishedIsFinal | src/HB.Framework.Database/DefaultDatabase.cs:1385-1393 | no call sequence moves a context out of a finished status |
| Transactions.FirstCallDecides | src/HB.Framework.Database/DefaultDatabase.cs:1378-1460 | the first commit or rollback leaves `InTransaction` for good and decides the final status |
| Transactions.RepeatIsHarmless | src/HB.Framework.Database/DefaultDatabase.cs:1429-1432 | a commit succeeds exactly without an engine fault; repeating it (or a rollback) is harmless |
| Transactions.CommitFailureThenRollback | src/HB.Framework.Database/DefaultDatabase.cs:1411-1415 | a failed commit leaves `Failed`, so a rollback then raises `TransactionError` |
| Transactions.TransactionContext.constructor | src/HB.Framework.Database/TransactionContext.cs:15-19 | the context stores its transaction and status |
| Transactions.BeginTransaction | src/HB.Framework.Database/DefaultDatabase.cs:1349-1354 | a fresh context `InTransaction` on the master, or the engine's failure |
| Transactions.CommitTransaction | src/HB.Framework.Database/DefaultDatabase.cs:1378-1416 | `CommitAsync` updates the status as `Finish` says and keeps the transaction; on a context already rolled back or failed it raises `TransactionError` with the text in the entity-name slot and leaves the status |
| Transactions.RollbackTransaction | src/HB.Framework.Database/DefaultDatabase.cs:1422-1460 | `RollbackAsync` updates the status as `Finish` says and keeps the transaction; on a context already committed or failed it raises `TransactionError` with the text in the entity-name slot and leaves the status |
| EntityDefs.AttributeTableName | src/HB.Framework.Database/Entity/DefaultDatabaseEntityDefFactory.cs:75-87 | the attribute's table name, else `tb_` + lower(type name) with the suffix stripped when it ends with it |
| EntityDefs.SchemaPrecedence | src/HB.Framework.Database/Entity/DefaultDatabaseEntityDefFactory.cs:71-127 | database name: attribute, then file, then the first default; a non-empty file table name and description override; `ReadOnly` always comes from the file |
| EntityDefs.SuffixOnlyStrippedThroughAttribute | src/HB.Framework.Database/Entity/DefaultDatabaseEntityDefFactory.cs:124-127 | the fallback table name strips no suffix, unlike the attribute path |
| EntityDefs.FileConfiguredOutcome | src/HB.Framework.Database/Entity/DefaultDatabaseEntityDefFactory.cs:59 | `ToDictionary` succeeds exactly for distinct type names and then holds every entry |
| EntityDefs.SchemaFoldSucceeds | src/HB.Framework.Database/Entity/DefaultDatabaseEntityDefFactory.cs:57-133 | the schema dictionary builds exactly when the type names are distinct, and holds one schema per type |
| EntityDefs.SchemaFoldEntry | src/HB.Framework.Database/Entity/DefaultDatabaseEntityDefFactory.cs:129 | each type's entry is its schema |
| EntityDefs.ConstructSchemaDict | src/HB.Framework.Database/Entity/DefaultDatabaseEntityDefFactory.cs:57-133 | the loop computes the schema dictionary |
| EntityDefs.SchemaFoldFailureSticks | src/HB.Framework.Database/Entity/DefaultDatabaseEntityDefFactory.cs:129 | a duplicate key aborts the whole construction |
| EntityDefs.PropertyDefOf | src/HB.Framework.Database/Entity/DefaultDatabaseEntityDefFactory.cs:207-284 | table-property and key flags of a property, with dialect-quoted names |
| EntityDefs.TablePart | src/HB.Framework.Database/Entity/DefaultDatabaseEntityDefFactory.cs:170-182 | `IsTableModel` exactly when a schema exists; then names and `DatabaseWriteable == !ReadOnly` come from it |
| EntityDefs.AddPropertiesContents | src/HB.Framework.Database/Entity/DefaultDatabaseEntityDefFactory.cs:188-200 | properties are added in order and `FieldCount` counts them |
| EntityDefs.CreateEntityDef | src/HB.Framework.Database/Entity/DefaultDatabaseEntityDefFactory.cs:156-205 | the loop computes the definition |
| EntityDefs.AddPropertiesFailureSticks | src/HB.Framework.Database/Entity/DefaultDatabaseEntityDefFactory.cs:188-200 | a duplicate property aborts the definition |
| EntityDefs.DefinitionFlags | src/HB.Framework.Database/Entity/DefaultDatabaseEntityDefFactory.cs:156-205 | a created definition is a table model exactly when its type has a schema, and writeable exactly when that schema is not read-only |
| EntityDefs.AddPropertiesDistinct | src/HB.Framework.Database/Entity/DefaultDatabaseEntityDefFactory.cs:188-200 | a created definition never holds two properties of one name |
| EntityDefs.DefsByDatabase | src/HB.Framework.Database/Entity/DefaultDatabaseEntityDefFactory.cs:291-294 | exactly the definitions whose database name equals the argument ignoring case; a null name throws |
| EntityDefs.DefsByDatabaseSnoc | src/HB.Framework.Database/Entity/DefaultDatabaseEntityDefFactory.cs:291-294 | the filter is an order-preserving per-element filter: one more named definition extends the result by itself exactly when it belongs to the database |
| EntityDefs.VarcharDefaultLength | src/HB.Framework.Database/Entity/DefaultDatabaseEntityDefFactory.cs:286-289 | 200 when the configured length is 0, otherwise the configured length |
| EntityDefs.EntityDefFactory.Values | src/HB.Framework.Database/Entity/DefaultDatabaseEntityDefFactory.cs:291-294 | the cached definitions in insertion order |
| EntityDefs.AppendNewContents | src/HB.Framework.Database/Entity/DefaultDatabaseEntityDefFactory.cs:52-55 | assigning types into the cache keeps the old key order as a prefix and ends with exactly the old keys and the types, each once |
| EntityDefs.AppendNewOfDistinct | src/HB.Framework.Database/Entity/DefaultDatabaseEntityDefFactory.cs:52-55 | distinct new types are appended in enumeration order |
| EntityDefs.EntityDefFactory.constructor | src/HB.Framework.Database/Entity/DefaultDatabaseEntityDefFactory.cs:30-34 | the fields the factory is built with, and an empty `_defDict` before the schema dictionary and the warm-up run |
| EntityDefs.NewEntityDefFactory | src/HB.Framework.Database/Entity/DefaultDatabaseEntityDefFactory.cs:30-50 | a factory is constructed exactly when the schema dictionary builds and every type's definition can be created (the first exception escapes); it then caches exactly the entity types, in enumeration order, each with its own definition |
| EntityDefs.EntityDefFactory.Store | src/HB.Framework.Database/Entity/DefaultDatabaseEntityDefFactory.cs:148-151 | storing a definition adds or replaces one cache entry |
| EntityDefs.EntityDefFactory.GetDef | src/HB.Framework.Database/Entity/DefaultDatabaseEntityDefFactory.cs:140-154 | a hit returns the cached definition and changes nothing; a miss creates, caches and returns it |
| EntityDefs.EntityDefFactory.WarmUp | src/HB.Framework.Database/Entity/DefaultDatabaseEntityDefFactory.cs:52-55 | warm-up succeeds exactly when every type's definition can be created; then each type is cached with its own definition, no other type enters the cache, other cached types keep theirs, and new keys are appended in first-occurrence order; otherwise it throws the first failing type's exception |
| SqlBuilder.GetProperty | src/HB.Framework.Database/SQL/SQLBuilderHelper.cs:50 | finds the property of a name, and fails when there is none |
| SqlBuilder.FilterMembers | src/HB.Framework.Database/SQL/SQLBuilderHelper.cs:17-31 | the filtered list holds exactly the kept properties, in order |
| SqlBuilder.ItemsAlign | src/HB.Framework.Database/SQL/SQLBuilderHelper.cs:23-30 | columns and values have equal length, and the i-th value is the i-th column's parameter |
| SqlBuilder.TrimmedIsJoin | src/HB.Framework.Database/SQL/SQLBuilderHelper.cs:35-48 | removing the trailing comma of a non-empty list gives the comma-joined list |
| SqlBuilder.LastInsertIdStatement | src/HB.Framework.Database/SQL/SQLBuilderHelper.cs:145-153 | `last_insert_id()` or `last_insert_rowid()`, and empty for any other engine |
| SqlBuilder.FoundChangesStatement | src/HB.Framework.Database/SQL/SQLBuilderHelper.cs:135-143 | `row_count()` or ` changes() `, and empty for any other engine |
| SqlBuilder.TempTableInsert | src/HB.Framework.Database/SQL/SQLBuilderHelper.cs:95-103 | the dialect's insert, and empty for any other engine |
| SqlBuilder.TempTableSelectAll | src/HB.Framework.Database/SQL/SQLBuilderHelper.cs:105-113 | the dialect's select, and empty for any other engine |
| SqlBuilder.TempTableDrop | src/HB.Framework.Database/SQL/SQLBuilderHelper.cs:115-123 | the dialect's drop, and empty for any other engine |
| SqlBuilder.TempTableCreate | src/HB.Framework.Database/SQL/SQLBuilderHelper.cs:125-133 | the dialect's create, and empty for any other engine |
| SqlBuilder.TempTableStatementsNameTheTable | src/HB.Framework.Database/SQL/SQLBuilderHelper.cs:95-133 | every MySQL and SQLite temp-table statement mentions the table |
| SqlBuilder.CreateAddTemplate | src/HB.Framework.Database/SQL/SQLBuilderHelper.cs:11-53 | the loop builds the INSERT-then-select-back template |
| SqlBuilder.CreateUpdateTemplate | src/HB.Framework.Database/SQL/SQLBuilderHelper.cs:55-80 | the loop builds the UPDATE SET template |
| SqlBuilder.TemplateColumns | src/HB.Framework.Database/SQL/SQLBuilderHelper.cs:17-31 | INSERT lists exactly the table properties other than the key and `LastTime`; the select list every table property; SET those minus `Deleted`; the template exists exactly with an `Id` property |
| SqlBuilder.DeleteTemplate | src/HB.Framework.Database/SQL/SQLBuilderHelper.cs:82-93 | the template exists exactly when `Deleted` and `LastUser` are properties |
| Crud.CommandChannel | src/HB.Framework.Database/DefaultDatabase.cs:495 | a command runs on the transaction, else on the entity's database; it succeeds exactly when that database's master (write) or read key is configured; a null database name looks up the keys `_1` and `_0` |
| Crud.Guarded | src/HB.Framework.Database/DefaultDatabase.cs:492-509 | a read succeeds exactly when routing and driver do; failures are always `DatabaseException`s, the driver's wrapped as `InnerError` for the entity with the operation's detail text as message and the operation name |
| Crud.ReadRouting | src/HB.Infrastructure.MySQL/MySQLEngine.cs:297-319 | a non-transactional read needs the `_0` entry; a transactional one always routes |
| Crud.Adjust | src/HB.Framework.Database/DefaultDatabase.cs:478-483 | a missing condition is created, and the soft-delete conjuncts are appended to it |
| Crud.Retrieve | src/HB.Framework.Database/DefaultDatabase.cs:468-517 | the condition gains `Deleted == false` and the read is guarded |
| Crud.RetrieveSelectFromWhere | src/HB.Framework.Database/DefaultDatabase.cs:405-458 | the three-type read filters the where entity and adds the rest |
| Crud.ScalarOf | src/HB.Framework.Database/DefaultDatabase.cs:379-393 | none for 0 rows, the row for 1, `FoundTooMuch` for more |
| Crud.ScalarOnlyOfSingleRow | src/HB.Framework.Database/DefaultDatabase.cs:379-393 | a scalar value exists only when the read returned exactly one row |
| Crud.Scalar | src/HB.Framework.Database/DefaultDatabase.cs:374-395 | Scalar reads with the soft-delete filter and classifies the row count |
| Crud.PageLimit | src/HB.Framework.Database/DefaultDatabase.cs:538 | take is the page size; skip is `(pageNumber-1)*perPageCount` without overflow |
| Crud.PagesAreConsecutive | src/HB.Framework.Database/DefaultDatabase.cs:538 | page 1 starts at 0 and each page starts where the previous one ends |
| Crud.Page | src/HB.Framework.Database/DefaultDatabase.cs:519-541 | the soft-delete filter is added twice and the limit set |
| Crud.PageByExpression | src/HB.Framework.Database/DefaultDatabase.cs:750-756 | the predicate is dropped: the condition holds only the soft-delete filter |
| Crud.CountOf | src/HB.Framework.Database/DefaultDatabase.cs:578 | `Convert.ToInt32` succeeds exactly within 32 bits, else `OverflowException` |
| Crud.CountOutcome | src/HB.Framework.Database/DefaultDatabase.cs:552-590 | Count succeeds exactly when routing, driver and conversion do, with the counted value |
| Crud.CountByExpression | src/HB.Framework.Database/DefaultDatabase.cs:765-773 | the predicate then the soft-delete filter |
| Crud.JoinFiltering | src/HB.Framework.Database/DefaultDatabase.cs:795-811 | LEFT filters the source, RIGHT the last target, INNER/CROSS all, FULL none (also for three types) |
| Crud.RetrieveJoin | src/HB.Framework.Database/DefaultDatabase.cs:786-840 | the join read adds its filters by join kind |
| Crud.PageJoin | src/HB.Framework.Database/DefaultDatabase.cs:842-855 | the join page adds the filters and the limit |
| Crud.WriteGate | src/HB.Framework.Database/DefaultDatabase.cs:1012-1019 | a write passes exactly when the item is valid and the entity writeable, else a validation error or `NotWriteable` |
| Crud.AffectedOneRow | src/HB.Framework.Database/DefaultDatabase.cs:1068-1080 | exactly one row is success, none is `NotFound`, more is `FoundTooMuch` |
| Crud.WriteOutcome | src/HB.Framework.Database/DefaultDatabase.cs:1063-1085 | a guarded write succeeds exactly when it routes and affects one row |
| Crud.Add | src/HB.Framework.Database/DefaultDatabase.cs:1010-1043 | the item receives the id and version read back, and is unchanged on failure |
| Crud.Update | src/HB.Framework.Database/DefaultDatabase.cs:1095-1145 | the condition is `Id`, not deleted, `Version`; success increments the version by one in 64 bits; failure keeps it |
| Crud.Delete | src/HB.Framework.Database/DefaultDatabase.cs:1050-1088 | the condition is `Id`, not deleted, `Version`; the outcome is that of the write |
| Crud.StaleWriteIsNotFound | src/HB.Framework.Database/DefaultDatabase.cs:1072-1080 | a stale version (0 rows) is `NotFound`, 2 rows `FoundTooMuch` |
| Crud.ReadIds | src/HB.Framework.Database/DefaultDatabase.cs:1182-1192 | the ids are collected in reader order |
| Crud.BatchAdd | src/HB.Framework.Database/DefaultDatabase.cs:1152-1213 | empty input gives no ids before the write gate; a valid, writeable batch whose reader returns one id per item returns exactly those ids in order; a count mismatch is `NotMatch`; a reader failure is rethrown as `InnerError` with the `Items:` detail |
| Crud.CheckBatchRows | src/HB.Framework.Database/DefaultDatabase.cs:1248-1263 | passes exactly when every row reports 1 and there is one row per item; otherwise `NotFound` for the entity under `BatchUpdateAsync` or `BatchDeleteAsync`, with the corrected message naming the first failing row, or the wrong-number message |
| Crud.FirstNotOneIs | src/HB.Framework.Database/DefaultDatabase.cs:1250-1258 | the first row that does not report 1 is the one the loop stops at |
| Crud.BatchChange | src/HB.Framework.Database/DefaultDatabase.cs:1220-1279 | empty input succeeds; `NotWriteable` gate; a reader that reports 1 for every one of the items succeeds, and success means every item affected exactly one row; a reader failure is rethrown as `InnerError` for the entity with the `Items:` detail |
| Crud.BeginTransactionFor | src/HB.Framework.Database/DefaultDatabase.cs:1362-1371 | a non-table model raises `NotATableModel` with no message; a table model gets a fresh `InTransaction` context exactly when the master key of its database (`_1` for a null name) is configured, and otherwise the engine's failure |
| Bootstrap.NewDefaultDatabase | src/HB.Framework.Database/DefaultDatabase.cs:44-62 | a negative configured version is an `ArgumentException` |
| Bootstrap.TableNames | src/HB.Framework.Database/DefaultDatabase.cs:165-171 | one table per definition, in order |
| Bootstrap.CreateTablesSucceedsIff | src/HB.Framework.Database/DefaultDatabase.cs:146-171 | the create pass succeeds exactly when every definition enumerated has a database name and, when it belongs to the database, is a table model whose command runs |
| Bootstrap.CreateTablesAddsTables | src/HB.Framework.Database/DefaultDatabase.cs:165-171 | a successful create pass adds one table per definition of the database, in enumeration order, and the filter then succeeds |
| Bootstrap.CreateTablesFirstFailure | src/HB.Framework.Database/DefaultDatabase.cs:146-171 | a failed create pass throws what the first failing definition throws (`NullReferenceException` for a null name, `NotATableModel`, or the command's fault); every definition before it passed |
| Bootstrap.CreateTablesOutcome | src/HB.Framework.Database/DefaultDatabase.cs:146-171 | the three facts above together |
| Bootstrap.CreateTablesFailureSticks | src/HB.Framework.Database/DefaultDatabase.cs:165-171 | the first exception ends the enumeration: later definitions are not examined |
| Bootstrap.CreateTablesByDatabase | src/HB.Framework.Database/DefaultDatabase.cs:165-171 | the loop over the lazily filtered definitions returns what `CreateTables` specifies |
| Bootstrap.MigrationsFor | src/HB.Framework.Database/DefaultDatabase.cs:201-203 | exactly the migrations targeting the database, ignoring case |
| Bootstrap.InsertByOldVersion | src/HB.Framework.Database/DefaultDatabase.cs:203 | inserting a migration adds exactly it |
| Bootstrap.InsertKeepsSorted | src/HB.Framework.Database/DefaultDatabase.cs:203 | inserting keeps the order by old version |
| Bootstrap.OrderByOldVersionSorts | src/HB.Framework.Database/DefaultDatabase.cs:201-203 | `OrderBy(OldVersion)` gives a sorted permutation |
| Bootstrap.CheckMigration | src/HB.Framework.Database/DefaultDatabase.cs:243-260 | an empty list throws `ArgumentOutOfRange`; true exactly for a chain from the stored to the configured version |
| Bootstrap.ChainClimbs | src/HB.Framework.Database/DefaultDatabase.cs:243-260 | in an accepted chain of forward steps the old versions strictly increase and start < end |
| Bootstrap.SingleStepChain | src/HB.Framework.Database/DefaultDatabase.cs:243-260 | an accepted chain of single steps has one migration per version, the i-th from `start+i` |
| Bootstrap.Statements | src/HB.Framework.Database/DefaultDatabase.cs:214-220 | one statement per migration, in order |
| Bootstrap.RunMigrations | src/HB.Framework.Database/DefaultDatabase.cs:214-220 | the statements all run, in order, exactly when none fails |
| Bootstrap.RunMigrationsFailureSticks | src/HB.Framework.Database/DefaultDatabase.cs:214-220 | the first failing statement ends the run |
| Bootstrap.RunMigrationStatements | src/HB.Framework.Database/DefaultDatabase.cs:214-220 | the loop runs the statements as specified |
| Bootstrap.Conclude | src/HB.Framework.Database/DefaultDatabase.cs:124-134 | the state changes only on a successful commit; a commit failure surfaces as `TransactionError`; otherwise the exception is rethrown or wrapped |
| Bootstrap.OnDatabase | src/HB.Framework.Database/DefaultDatabase.cs:98-136 | a failed begin propagates as it is, and an exception leaves the database unchanged |
| Bootstrap.EachDatabase | src/HB.Framework.Database/DefaultDatabase.cs:98-136 | a pass changes only the databases it visits |
| Bootstrap.EachDatabaseStep | src/HB.Framework.Database/DefaultDatabase.cs:98-136 | a pass over one more database is one more step |
| Bootstrap.EachDatabaseFailureSticks | src/HB.Framework.Database/DefaultDatabase.cs:98-136 | the first exception ends the pass |
| Bootstrap.MigrateAll | src/HB.Framework.Database/DefaultDatabase.cs:180-183 | a step that does not go up refuses the whole pass before any transaction |
| Bootstrap.InitializeOutcome | src/HB.Framework.Database/DefaultDatabase.cs:72-89 | no auto-create and no migrations changes nothing, and databases not named are never touched |
| Bootstrap.EndTransaction | src/HB.Framework.Database/DefaultDatabase.cs:122-134 | commit or the catch block on the real context, as `Conclude` says |
| Bootstrap.AutoCreateTablesOfDatabase | src/HB.Framework.Database/DefaultDatabase.cs:98-136 | one database of the create pass, as `OnDatabase` says |
| Bootstrap.MigrateDatabase | src/HB.Framework.Database/DefaultDatabase.cs:185-240 | one database of the migration pass, as `OnDatabase` says |
| Bootstrap.ForEachDatabase | src/HB.Framework.Database/DefaultDatabase.cs:98-136 | the loop over the configured databases, as `EachDatabase` says |
| Bootstrap.Initialize | src/HB.Framework.Database/DefaultDatabase.cs:72-89 | `InitializeAsync` as `InitializeOutcome` says |
| Bootstrap.NameAlwaysPresent | src/HB.Infrastructure.MySQL/MySQLEngine.cs:195-226 | the system info always carries a database name |
| Bootstrap.VersionFromRows | src/HB.Infrastructure.MySQL/MySQLEngine.cs:212-219 | the version read from an existing table does not depend on the asked name |
| Bootstrap.BrandNewNeedsVersionOne | src/HB.Framework.Database/DefaultDatabase.cs:106-115 | a brand-new database with a configured version other than 1 raises `TableCreateError` and is unchanged |
| Bootstrap.BrandNewGetsItsTables | src/HB.Framework.Database/DefaultDatabase.cs:106-119 | a brand-new database gets its tables, version 1 and its name |
| Bootstrap.CreatePassSkipsInitialised | src/HB.Framework.Database/DefaultDatabase.cs:106 | the create pass leaves a database with a version alone |
| Bootstrap.CreateIsIdempotent | src/HB.Framework.Database/DefaultDatabase.cs:96-137 | a second create pass over a database changes nothing |
| Bootstrap.PlanIsOrderedSelection | src/HB.Framework.Database/DefaultDatabase.cs:201-203 | the plan is the sorted selection of the database's migrations |
| Bootstrap.MigrationReachesTarget | src/HB.Framework.Database/DefaultDatabase.cs:192-225 | with a valid chain, the statements run in order and the database reads the target version |
| Bootstrap.MigrationGapRefused | src/HB.Framework.Database/DefaultDatabase.cs:210-213 | a gap in the chain raises `MigrateError` before any statement runs and leaves the database unchanged |
| Bootstrap.CreateAttemptSettles | src/HB.Framework.Database/DefaultDatabase.cs:103-120 | a create attempt that ends normally leaves a database with a non-zero version |
| Bootstrap.MigrateAttemptSettles | src/HB.Framework.Database/DefaultDatabase.cs:190-225 | a migration attempt that ends normally leaves a database at least at the target version |
| Bootstrap.OnDatabaseSettles | src/HB.Framework.Database/DefaultDatabase.cs:96-240 | a database that a pass leaves without an exception has a version (create), or at least the target (migrate) |
| Bootstrap.EachDatabaseSettles | src/HB.Framework.Database/DefaultDatabase.cs:96-240 | after a pass without an exception, every visited database is settled |
| Bootstrap.InitializeReachesVersion | src/HB.Framework.Database/DefaultDatabase.cs:72-89 | a successful `InitializeAsync` with migrations leaves every configured database at least at the configured version |

## Left out

- Driver I/O (`MySQLExecuter`, `SQLiteExecuter`, `SQLiteEngineAsync`), connection lifetimes and `Dispose`: every effect is an input (rows read, affected-row counts, faults).
- async/await and `ForEachAsync`: treated as sequential calls.
- Logging, dependency injection and option classes: no behaviour to state.
- The expression compiler (`SelectExpression`, `FromExpression`, `WhereExpression`) and `ISQLBuilder` are not part of this model. A condition is a list of tagged conjuncts, and a command is not built.
- The row mapper (`IDatabaseEntityMapper`) is not part of this model. Rows are opaque values, and `Add` reads back an (id, version) pair.
- Reflection in the entity definition factory (type discovery, attributes, `PropertyInfo`, type converters): attribute and file data are input records.
- The `lock` around the cache in `GetDef`: `GetDef` is modelled sequentially.
- JSON serialisation of diagnostic payloads and the text of query conditions: a message or detail keeps its fixed text (`Entity:`, `Item:`, `Items:`, `select:, from:, where:`, `from:, where:`) and drops the interpolated part.
- `Resources` message texts: they are constants of the model.
- Culture-sensitive `ToLower` and case-insensitive comparison: modelled on ASCII letters only.
- `Convert.ToInt32` is modelled as an optional sign followed by decimal digits within 32 bits. Whitespace and culture formats are not modelled.
- `ThrowIf.NotValid` (item validation) is a boolean input.
- `DefaultDatabaseAsync.cs` and the `Context/` copies of `DatabaseError` and `DatabaseException` are superseded revisions and are not modelled.
- The `migrations == null` and `curOrderedMigrations == null` branches of `MigarateAsync` cannot be taken, because `InitializeAsync` passes a non-empty list and `OrderBy` never returns null. They are not modelled.
- `GetDef` failing inside the CRUD operations is not modelled there. The operations take the entity definition as an input, and `EntityDefs.EntityDefFactory.GetDef` models the failure.
- The SQLite engine's connection table and routing are the same code as MySQL's and share one model. Only its stored-procedure stubs differ, in `Engines.StoredProcedureRoute`.
- Faults in the start-up passes are injected per database visit (info read, statement index, commit, rollback). A fault cannot depend on earlier visits. The version write (`UpdateSystemVersion`) takes no driver fault: it fails only on the presence or absence of the system table.
- Isolation levels are not modelled: they only select the driver's isolation.
- Bootstrap.CheckMigration: the stability of `OrderBy` is not proved. `OrderByOldVersion` is proved to be a sorted permutation only. Two migrations with the same old version never form a chain, so the check's verdict does not depend on their relative order.
- Bootstrap.ChainClimbs: proved for chains of forward steps only. `MigrateAll` refuses any other step before a chain is checked.
- `ServerErrorCode.DatabaseError`, passed by the CRUD operations when they rethrow a reader's failure (DefaultDatabase.cs lines 447, 508, 583, 1136, 1204, 1268 and 1336), has no counterpart in `DatabaseError.cs`. The model maps it to `InnerError`.
- Crud.CheckBatchRows: the `NotFound` message is the corrected text, which names the failing row. The source emits the literal `" + count + "` text instead (see Findings, where `Crud.NotFoundRowMessage` models it as written).
- EntityDefs.DefsByDatabase: returns the whole filtered list, or the exception of the first unnamed definition. The laziness of the source's `Where` is modelled where the result is consumed. `Bootstrap.CreateTables` filters each definition as the enumeration reaches it, so the commands of earlier definitions run before a later unnamed definition throws.

## Findings

| source | as written | input that shows it | evidently intended | confidence | as-written member | corrected member |
|---|---|---|---|---|---|---|
| src/HB.Framework.Database/Migration.cs:29 | `newVersion != oldVersion + 1` is evaluated in unchecked 32-bit arithmetic, so `oldVersion + 1` wraps | `new Migration(db, int.MaxValue, int.MinValue, sql)` is accepted as a single step that goes down | reject anything but `newVersion = oldVersion + 1` over the integers | not executed | Migrations.WrapAroundAccepted | Migrations.NewMigration |
| src/HB.Framework.Database/DefaultDatabase.cs:1256 | the interpolated message puts a string literal in the hole (`{" + count + "}`), so the row number is never printed (also at line 1322) | a batch whose row 0 or row 7 reports 0 affected rows gives the same message | name the failing row in the message | not executed | Crud.NotFoundRowMessageLosesTheRow | Crud.NotFoundRowMessageFixedNamesTheRow |
