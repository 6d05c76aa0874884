/** Start-up of `DefaultDatabase`: the settings check of its constructor and
    `InitializeAsync`, which first creates the tables of brand-new databases
    and then migrates every database to the configured version, one
    serializable transaction per database. What a database holds is a
    `DbState` value; what the engine rejects is an input (`Faults`). */
module Bootstrap {
  import opened Common
  import opened DatabaseErrors
  import opened SystemInfos
  import opened Engines
  import opened EntityDefs
  import opened Migrations
  import Tx = Transactions

  /** The part of `DatabaseSettings` start-up reads. */
  datatype DatabaseSettings = DatabaseSettings(version: int32, automaticCreateTable: bool)

  /** `Resources.VersionShouldBePositiveMessage` (its text is not part of this model). */
  const VersionShouldBePositiveMessage: string := "VersionShouldBePositiveMessage"
  /** `Resources.MigrationVersionErrorMessage` (its text is not part of this model). */
  const MigrationVersionErrorMessage: string := "MigrationVersionErrorMessage"

  /** The `[CallerMemberName]` operations of the exceptions raised here. */
  const AutoCreateOperation: string := "AutoCreateTablesIfBrandNewAsync"
  const MigrateOperation: string := "MigarateAsync"
  const CreateTableOperation: string := "CreateTableAsync"

  function NotBrandNewMessage(db: string): string {
    "Database:" + db + " does not exists, database Version must be 1"
  }

  function InsufficientMigrationsMessage(name: string): string {
    "Can not perform Migration on $" + name + ", because the migrations provided is not sufficient."
  }

  /** The `DefaultDatabase` constructor keeps the engine's settings and
      rejects a negative version. */
  function NewDefaultDatabase(settings: DatabaseSettings): (r: Result<DatabaseSettings, Exception>)
    ensures r.Success? <==> settings.version >= 0
    ensures r.Success? ==> r.value == settings
    ensures r.Failure? ==> r.error == Other("ArgumentException", VersionShouldBePositiveMessage)
  {
    if settings.version < 0 then Failure(Other("ArgumentException", VersionShouldBePositiveMessage))
    else Success(settings)
  }

  // ---------------------------------------------------------------------
  // What a database holds, and what goes wrong
  // ---------------------------------------------------------------------

  /** One database as start-up sees it: its `tb_sys_info` rows (`None` when
      the table does not exist), the entities whose tables were created, and
      the migration statements run, oldest first. */
  datatype DbState = DbState(sysTable: Option<seq<Row>>, tables: seq<string>, applied: seq<string>)

  /** A database nobody has touched. */
  const BrandNew: DbState := DbState(None, [], [])

  function StateOf(stored: map<string, DbState>, db: string): DbState {
    if db in stored then stored[db] else BrandNew
  }

  /** The `index`-th command of a transaction is rejected with `error`. */
  datatype StatementFault = StatementFault(index: nat, error: Exception)

  /** What the engine rejects inside one database's transaction: reading the
      system information, one of the create or migration commands, the
      commit, and every rollback. */
  datatype Faults = Faults(
    infoFault: Option<Exception>,
    statementFault: Option<StatementFault>,
    commitFault: Option<Exception>,
    rollbackFault: Option<Exception>)

  const NoFaults: Faults := Faults(None, None, None, None)

  /** The faults of the `i`-th database visited. */
  function FaultsAt(faults: map<nat, Faults>, i: nat): Faults {
    if i in faults then faults[i] else NoFaults
  }

  function CommandFails(fault: Option<StatementFault>, index: nat): bool {
    fault.Some? && fault.value.index == index
  }

  // ---------------------------------------------------------------------
  // Creating tables
  // ---------------------------------------------------------------------

  function TableNames(defs: seq<EntityDef>): (r: seq<string>)
    ensures |r| == |defs|
    ensures forall i :: 0 <= i < |defs| ==> r[i] == defs[i].entityFullName
  {
    seq(|defs|, i requires 0 <= i < |defs| => defs[i].entityFullName)
  }

  /** The filter of `GetAllDefsByDatabase` throws on a definition without a
      database name when the enumeration reaches it. */
  const NoDatabaseName: Exception := Other("NullReferenceException", "DatabaseName")

  /** `CreateTablesByDatabaseAsync`: the lazily filtered definitions, each
      created as the enumeration reaches it. The `i`-th definition
      enumerated throws `NullReferenceException` when it has no database
      name, is skipped when it belongs to another database, raises
      `NotATableModel` when it is not a table model, and otherwise runs its
      create command; the first exception stops the rest. */
  function CreateTables(allDefs: seq<EntityDef>, db: string, working: DbState, fault: Option<StatementFault>)
    : (r: Result<DbState, Exception>)
    decreases |allDefs|
  {
    if allDefs == [] then Success(working)
    else
      var n := |allDefs| - 1;
      var init := CreateTables(allDefs[..n], db, working, fault);
      var d := allDefs[n];
      if init.Failure? then init
      else if d.databaseName.None? then Failure(NoDatabaseName)
      else if !EqualsIgnoreCase(d.databaseName.value, db) then init
      else if !d.isTableModel then Failure(Raise(NotATableModel, Some(d.entityFullName), None, CreateTableOperation))
      else if CommandFails(fault, n) then Failure(fault.value.error)
      else Success(init.value.(tables := init.value.tables + [d.entityFullName]))
  }

  /** The `i`-th definition enumerated passes: it has a name, and if it
      belongs to the database it is a table model whose command runs. */
  predicate CreatesCleanly(d: EntityDef, db: string, fault: Option<StatementFault>, i: nat) {
    d.databaseName.Some? && (EqualsIgnoreCase(d.databaseName.value, db) ==> d.isTableModel && !CommandFails(fault, i))
  }

  /** What the `i`-th definition throws when it does not pass. */
  function CreateError(d: EntityDef, fault: Option<StatementFault>): Exception {
    if d.databaseName.None? then NoDatabaseName
    else if !d.isTableModel then Raise(NotATableModel, Some(d.entityFullName), None, CreateTableOperation)
    else if fault.Some? then fault.value.error
    else NoDatabaseName
  }

  /** Creating succeeds exactly when every definition enumerated passes. */
  lemma {:induction false} CreateTablesSucceedsIff(allDefs: seq<EntityDef>, db: string, working: DbState, fault: Option<StatementFault>)
    ensures CreateTables(allDefs, db, working, fault).Success? <==>
            (forall i :: 0 <= i < |allDefs| ==> CreatesCleanly(allDefs[i], db, fault, i))
    decreases |allDefs|
  {
    if allDefs != [] {
      var n := |allDefs| - 1;
      CreateTablesSucceedsIff(allDefs[..n], db, working, fault);
      assert forall i :: 0 <= i < n ==> allDefs[..n][i] == allDefs[i];
    }
  }

  /** The names a definition adds to the table list: its own when it belongs
      to the database, none otherwise. */
  function NamesFor(d: EntityDef, db: string): (r: seq<string>)
    requires d.databaseName.Some?
    ensures r == TableNames(if EqualsIgnoreCase(d.databaseName.value, db) then [d] else [])
  {
    if EqualsIgnoreCase(d.databaseName.value, db) then [d.entityFullName] else []
  }

  /** A successful run is the successful run of its prefix plus the last
      definition's names. */
  lemma CreateTablesLast(allDefs: seq<EntityDef>, db: string, working: DbState, fault: Option<StatementFault>)
    requires allDefs != [] && CreateTables(allDefs, db, working, fault).Success?
    ensures var n := |allDefs| - 1;
      var init := CreateTables(allDefs[..n], db, working, fault);
      init.Success? && allDefs[n].databaseName.Some? &&
      CreateTables(allDefs, db, working, fault).value ==
        init.value.(tables := init.value.tables + NamesFor(allDefs[n], db))
  {
    var n := |allDefs| - 1;
    var init := CreateTables(allDefs[..n], db, working, fault);
    if !EqualsIgnoreCase(allDefs[n].databaseName.value, db) {
      assert init.value.tables + [] == init.value.tables;
    }
  }

  /** The names of the filtered list grow by the last definition's names. */
  lemma FilteredNamesLast(defs: seq<EntityDef>, db: string)
    requires defs != [] && DefsByDatabase(defs[..|defs| - 1], db).Success? && defs[|defs| - 1].databaseName.Some?
    ensures DefsByDatabase(defs, db).Success?
    ensures TableNames(DefsByDatabase(defs, db).value) ==
            TableNames(DefsByDatabase(defs[..|defs| - 1], db).value) + NamesFor(defs[|defs| - 1], db)
  {
    var n := |defs| - 1;
    var d := defs[n];
    assert defs == defs[..n] + [d];
    DefsByDatabaseSnoc(defs[..n], d, db);
    TableNamesAppend(DefsByDatabase(defs[..n], db).value, if EqualsIgnoreCase(d.databaseName.value, db) then [d] else []);
  }

  /** A successful run adds one table per definition of the database, in
      enumeration order. */
  lemma {:induction false} CreateTablesAddsTables(allDefs: seq<EntityDef>, db: string, working: DbState, fault: Option<StatementFault>)
    requires CreateTables(allDefs, db, working, fault).Success?
    ensures DefsByDatabase(allDefs, db).Success?
    ensures CreateTables(allDefs, db, working, fault).value ==
            working.(tables := working.tables + TableNames(DefsByDatabase(allDefs, db).value))
    decreases |allDefs|
  {
    if allDefs != [] {
      var n := |allDefs| - 1;
      var front := allDefs[..n];
      var d := allDefs[n];
      CreateTablesLast(allDefs, db, working, fault);
      CreateTablesAddsTables(front, db, working, fault);
      FilteredNamesLast(allDefs, db);
      var before := TableNames(DefsByDatabase(front, db).value);
      assert working.tables + before + NamesFor(d, db) == working.tables + (before + NamesFor(d, db));
    }
  }

  lemma TableNamesAppend(a: seq<EntityDef>, b: seq<EntityDef>)
    ensures TableNames(a + b) == TableNames(a) + TableNames(b)
  {
    assert forall i :: 0 <= i < |a + b| ==> (a + b)[i] == if i < |a| then a[i] else b[i - |a|];
  }

  /** A failed run throws what the first definition that does not pass
      throws; every definition before it has run its command. */
  lemma {:induction false} CreateTablesFirstFailure(allDefs: seq<EntityDef>, db: string, working: DbState, fault: Option<StatementFault>)
    requires CreateTables(allDefs, db, working, fault).Failure?
    ensures exists k :: 0 <= k < |allDefs| && !CreatesCleanly(allDefs[k], db, fault, k) &&
              (forall i :: 0 <= i < k ==> CreatesCleanly(allDefs[i], db, fault, i)) &&
              CreateTables(allDefs, db, working, fault).error == CreateError(allDefs[k], fault)
    decreases |allDefs|
  {
    var n := |allDefs| - 1;
    var front := allDefs[..n];
    assert forall i :: 0 <= i < n ==> front[i] == allDefs[i];
    if CreateTables(front, db, working, fault).Failure? {
      CreateTablesFirstFailure(front, db, working, fault);
      var k :| 0 <= k < |front| && !CreatesCleanly(front[k], db, fault, k) &&
               (forall i :: 0 <= i < k ==> CreatesCleanly(front[i], db, fault, i)) &&
               CreateTables(front, db, working, fault).error == CreateError(front[k], fault);
      assert allDefs[k] == front[k];
    } else {
      CreateTablesSucceedsIff(front, db, working, fault);
      assert !CreatesCleanly(allDefs[n], db, fault, n);
    }
  }

  /** Creating succeeds exactly when every definition enumerated passes, and
      then adds one table per definition of the database, in order; otherwise
      the exception is the one of the first definition that does not pass,
      so the definitions before it have run their commands. */
  lemma CreateTablesOutcome(allDefs: seq<EntityDef>, db: string, working: DbState, fault: Option<StatementFault>)
    ensures var r := CreateTables(allDefs, db, working, fault);
      (r.Success? <==> (forall i :: 0 <= i < |allDefs| ==> CreatesCleanly(allDefs[i], db, fault, i))) &&
      (r.Success? ==> DefsByDatabase(allDefs, db).Success? &&
                      r.value == working.(tables := working.tables + TableNames(DefsByDatabase(allDefs, db).value))) &&
      (r.Failure? ==>
        exists k :: 0 <= k < |allDefs| && !CreatesCleanly(allDefs[k], db, fault, k) &&
          (forall i :: 0 <= i < k ==> CreatesCleanly(allDefs[i], db, fault, i)) &&
          r.error == CreateError(allDefs[k], fault))
  {
    CreateTablesSucceedsIff(allDefs, db, working, fault);
    if CreateTables(allDefs, db, working, fault).Success? {
      CreateTablesAddsTables(allDefs, db, working, fault);
    } else {
      CreateTablesFirstFailure(allDefs, db, working, fault);
    }
  }

  /** Once a prefix fails, the whole run fails the same way. */
  lemma {:induction false} CreateTablesFailureSticks(allDefs: seq<EntityDef>, db: string, working: DbState,
                                                     fault: Option<StatementFault>, k: nat)
    requires k <= |allDefs| && CreateTables(allDefs[..k], db, working, fault).Failure?
    ensures CreateTables(allDefs, db, working, fault) == CreateTables(allDefs[..k], db, working, fault)
    decreases |allDefs|
  {
    if k < |allDefs| {
      var n := |allDefs| - 1;
      assert allDefs[..n][..k] == allDefs[..k];
      CreateTablesFailureSticks(allDefs[..n], db, working, fault, k);
    } else {
      assert allDefs[..k] == allDefs;
    }
  }

  /** The definitions of a database are read in enumeration order and each
      created in turn. */
  method CreateTablesByDatabase(allDefs: seq<EntityDef>, db: string, working: DbState, fault: Option<StatementFault>)
    returns (r: Result<DbState, Exception>)
    ensures r == CreateTables(allDefs, db, working, fault)
  {
    var current := working;
    var i := 0;
    while i < |allDefs|
      invariant 0 <= i <= |allDefs|
      invariant CreateTables(allDefs[..i], db, working, fault) == Success(current)
    {
      var d := allDefs[i];
      assert allDefs[..i + 1][..i] == allDefs[..i];
      if d.databaseName.None? {
        r := Failure(NoDatabaseName);
        CreateTablesFailureSticks(allDefs, db, working, fault, i + 1);
        return;
      }
      if EqualsIgnoreCase(d.databaseName.value, db) {
        if !d.isTableModel {
          r := Failure(Raise(NotATableModel, Some(d.entityFullName), None, CreateTableOperation));
          CreateTablesFailureSticks(allDefs, db, working, fault, i + 1);
          return;
        }
        if CommandFails(fault, i) {
          r := Failure(fault.value.error);
          CreateTablesFailureSticks(allDefs, db, working, fault, i + 1);
          return;
        }
        current := current.(tables := current.tables + [d.entityFullName]);
      }
      i := i + 1;
    }
    assert allDefs[..|allDefs|] == allDefs;
    return Success(current);
  }

  // ---------------------------------------------------------------------
  // Choosing, ordering and checking migrations
  // ---------------------------------------------------------------------

  /** `migrations.Where(m => m.TargetSchema.Equals(name, ignore case))`. */
  function MigrationsFor(ms: seq<Migration>, name: string): (r: seq<Migration>)
    ensures forall m :: m in r <==> m in ms && EqualsIgnoreCase(m.targetDatabaseName, name)
    ensures |r| <= |ms|
    decreases |ms|
  {
    if ms == [] then []
    else
      var n := |ms| - 1;
      var init := MigrationsFor(ms[..n], name);
      assert ms == ms[..n] + [ms[n]];
      if EqualsIgnoreCase(ms[n].targetDatabaseName, name) then init + [ms[n]] else init
  }

  predicate SortedByOldVersion(ms: seq<Migration>) {
    forall i, j :: 0 <= i < j < |ms| ==> ms[i].oldVersion <= ms[j].oldVersion
  }

  /** `m` placed after every element whose old version is not above its own,
      which keeps equal keys in arrival order. */
  function InsertByOldVersion(sorted: seq<Migration>, m: Migration): (r: seq<Migration>)
    ensures multiset(r) == multiset(sorted) + multiset{m}
    decreases |sorted|
  {
    if sorted == [] || sorted[|sorted| - 1].oldVersion <= m.oldVersion then sorted + [m]
    else
      var n := |sorted| - 1;
      assert sorted == sorted[..n] + [sorted[n]];
      InsertByOldVersion(sorted[..n], m) + [sorted[n]]
  }

  /** Inserting keeps every old version under a bound that all the
      elements and the new one respect. */
  lemma {:induction false} InsertBounded(sorted: seq<Migration>, m: Migration, bound: int)
    requires forall k :: 0 <= k < |sorted| ==> sorted[k].oldVersion <= bound
    requires m.oldVersion <= bound
    ensures forall k :: 0 <= k < |InsertByOldVersion(sorted, m)| ==> InsertByOldVersion(sorted, m)[k].oldVersion <= bound
    decreases |sorted|
  {
    if sorted != [] && sorted[|sorted| - 1].oldVersion > m.oldVersion {
      var n := |sorted| - 1;
      InsertBounded(sorted[..n], m, bound);
    }
  }

  lemma {:induction false} InsertKeepsSorted(sorted: seq<Migration>, m: Migration)
    requires SortedByOldVersion(sorted)
    ensures SortedByOldVersion(InsertByOldVersion(sorted, m))
    decreases |sorted|
  {
    if sorted != [] && sorted[|sorted| - 1].oldVersion > m.oldVersion {
      var n := |sorted| - 1;
      var last := sorted[n];
      var front := InsertByOldVersion(sorted[..n], m);
      InsertKeepsSorted(sorted[..n], m);
      InsertBounded(sorted[..n], m, last.oldVersion);
      var r := front + [last];
      assert InsertByOldVersion(sorted, m) == r;
      forall i, j | 0 <= i < j < |r|
        ensures r[i].oldVersion <= r[j].oldVersion
      {
        assert r[i] == front[i];
        if j < |front| {
          assert r[j] == front[j];
        }
      }
    }
  }

  /** `OrderBy(m => m.OldVersion)`, a stable sort. */
  function OrderByOldVersion(ms: seq<Migration>): (r: seq<Migration>)
    decreases |ms|
  {
    if ms == [] then [] else InsertByOldVersion(OrderByOldVersion(ms[..|ms| - 1]), ms[|ms| - 1])
  }

  /** The ordering sorts. */
  lemma {:induction false} OrderByOldVersionSorted(ms: seq<Migration>)
    ensures SortedByOldVersion(OrderByOldVersion(ms))
    decreases |ms|
  {
    if ms != [] {
      var n := |ms| - 1;
      OrderByOldVersionSorted(ms[..n]);
      InsertKeepsSorted(OrderByOldVersion(ms[..n]), ms[n]);
    }
  }

  /** The ordering neither loses nor invents a migration. */
  lemma {:induction false} OrderByOldVersionPermutes(ms: seq<Migration>)
    ensures multiset(OrderByOldVersion(ms)) == multiset(ms)
    decreases |ms|
  {
    if ms != [] {
      var n := |ms| - 1;
      OrderByOldVersionPermutes(ms[..n]);
      assert ms == ms[..n] + [ms[n]];
    }
  }

  /** The ordering sorts and neither loses nor invents a migration. */
  lemma OrderByOldVersionSorts(ms: seq<Migration>)
    ensures SortedByOldVersion(OrderByOldVersion(ms))
    ensures multiset(OrderByOldVersion(ms)) == multiset(ms)
  {
    OrderByOldVersionSorted(ms);
    OrderByOldVersionPermutes(ms);
  }

  /** The ordered migrations lead from `start` to `end`, each starting where
      the previous one ended. */
  predicate IsChain(start: int, end: int, ms: seq<Migration>) {
    |ms| > 0 &&
    ms[0].oldVersion == start &&
    (forall i :: 0 < i < |ms| ==> ms[i - 1].newVersion == ms[i].oldVersion) &&
    ms[|ms| - 1].newVersion == end
  }

  /** What `CheckMigration` decides: `ElementAt(0)` of an empty list raises
      `ArgumentOutOfRangeException`; otherwise whether the list is a chain. */
  function MigrationCheck(start: int, end: int, ms: seq<Migration>): (r: Result<bool, Exception>)
  {
    if ms == [] then Failure(Other("ArgumentOutOfRangeException", "index")) else Success(IsChain(start, end, ms))
  }

  /** `CheckMigration(startVersion, endVersion, ordered)`. */
  method CheckMigration(start: int32, end: int32, ordered: seq<Migration>) returns (r: Result<bool, Exception>)
    ensures ordered == [] <==> r.Failure?
    ensures r.Failure? ==> r.error.Other? && r.error.typeName == "ArgumentOutOfRangeException"
    ensures r.Success? ==> (r.value <==> IsChain(start, end, ordered))
    ensures r == MigrationCheck(start, end, ordered)
  {
    if |ordered| == 0 {
      return Failure(Other("ArgumentOutOfRangeException", "index"));
    }
    var current := ordered[0].oldVersion;
    if current != start {
      return Success(false);
    }
    var i := 0;
    while i < |ordered|
      invariant 0 <= i <= |ordered|
      invariant current == (if i == 0 then ordered[0].oldVersion else ordered[i - 1].newVersion)
      invariant forall j :: 0 < j < i ==> ordered[j - 1].newVersion == ordered[j].oldVersion
    {
      if current != ordered[i].oldVersion {
        return Success(false);
      }
      current := ordered[i].newVersion;
      i := i + 1;
    }
    return Success(current == end);
  }

  /** Every step of a chain of increasing migrations raises the version, so
      the chain climbs strictly: its old versions are distinct and sorted,
      and it ends above where it starts. */
  lemma {:induction false} ChainClimbs(start: int, end: int, ms: seq<Migration>)
    requires IsChain(start, end, ms)
    requires forall i :: 0 <= i < |ms| ==> ms[i].newVersion > ms[i].oldVersion
    ensures forall i :: 0 <= i < |ms| ==> ms[i].oldVersion >= start + i
    ensures forall i, j :: 0 <= i < j < |ms| ==> ms[i].oldVersion < ms[j].oldVersion
    ensures start < end
  {
    forall j | 0 <= j < |ms|
      ensures ms[j].oldVersion >= start + j
      ensures forall i :: 0 <= i < j ==> ms[i].oldVersion < ms[j].oldVersion
    {
      ChainClimbsTo(start, end, ms, j);
    }
    ChainClimbsTo(start, end, ms, |ms| - 1);
  }

  lemma {:induction false} ChainClimbsTo(start: int, end: int, ms: seq<Migration>, j: nat)
    requires IsChain(start, end, ms)
    requires forall i :: 0 <= i < |ms| ==> ms[i].newVersion > ms[i].oldVersion
    requires j < |ms|
    ensures ms[j].oldVersion >= start + j
    ensures forall i :: 0 <= i < j ==> ms[i].oldVersion < ms[j].oldVersion
    decreases j
  {
    if j > 0 {
      ChainClimbsTo(start, end, ms, j - 1);
      assert ms[j - 1].newVersion == ms[j].oldVersion;
    }
  }

  /** With single-step migrations, as the corrected constructor builds them,
      a chain holds exactly one migration per version between the two ends. */
  lemma {:induction false} SingleStepChain(start: int, end: int, ms: seq<Migration>)
    requires IsChain(start, end, ms)
    requires forall i :: 0 <= i < |ms| ==> SingleStep(ms[i])
    ensures forall i :: 0 <= i < |ms| ==> ms[i].oldVersion == start + i
    ensures |ms| == end - start
  {
    forall j | 0 <= j < |ms|
      ensures ms[j].oldVersion == start + j
    {
      SingleStepAt(start, end, ms, j);
    }
    SingleStepAt(start, end, ms, |ms| - 1);
  }

  lemma {:induction false} SingleStepAt(start: int, end: int, ms: seq<Migration>, j: nat)
    requires IsChain(start, end, ms)
    requires forall i :: 0 <= i < |ms| ==> SingleStep(ms[i])
    requires j < |ms|
    ensures ms[j].oldVersion == start + j
    decreases j
  {
    if j > 0 {
      SingleStepAt(start, end, ms, j - 1);
      assert ms[j - 1].newVersion == ms[j].oldVersion;
    }
  }

  // ---------------------------------------------------------------------
  // Running migrations
  // ---------------------------------------------------------------------

  function Statements(ms: seq<Migration>): (r: seq<string>)
    ensures |r| == |ms|
    ensures forall i :: 0 <= i < |ms| ==> r[i] == ms[i].sqlStatement
  {
    seq(|ms|, i requires 0 <= i < |ms| => ms[i].sqlStatement)
  }

  /** The migration statements run one by one; a statement the engine
      rejects stops the rest. */
  function RunMigrations(ms: seq<Migration>, working: DbState, fault: Option<StatementFault>): (r: Result<DbState, Exception>)
    ensures r.Success? <==> forall i :: 0 <= i < |ms| ==> !CommandFails(fault, i)
    ensures r.Success? ==> r.value == working.(applied := working.applied + Statements(ms))
    ensures r.Failure? ==> fault.Some? && fault.value.index < |ms| && r.error == fault.value.error
    decreases |ms|
  {
    if ms == [] then Success(working)
    else
      var n := |ms| - 1;
      var init := RunMigrations(ms[..n], working, fault);
      if init.Failure? then init
      else if CommandFails(fault, n) then Failure(fault.value.error)
      else
        assert Statements(ms) == Statements(ms[..n]) + [ms[n].sqlStatement];
        Success(init.value.(applied := init.value.applied + [ms[n].sqlStatement]))
  }

  lemma {:induction false} RunMigrationsFailureSticks(ms: seq<Migration>, working: DbState, fault: Option<StatementFault>, k: nat)
    requires k <= |ms| && RunMigrations(ms[..k], working, fault).Failure?
    ensures RunMigrations(ms, working, fault) == RunMigrations(ms[..k], working, fault)
    decreases |ms|
  {
    if k < |ms| {
      var n := |ms| - 1;
      assert ms[..n][..k] == ms[..k];
      RunMigrationsFailureSticks(ms[..n], working, fault, k);
    } else {
      assert ms[..k] == ms;
    }
  }

  /** The `ForEachAsync` over the ordered migrations. */
  method RunMigrationStatements(ms: seq<Migration>, working: DbState, fault: Option<StatementFault>)
    returns (r: Result<DbState, Exception>)
    ensures r == RunMigrations(ms, working, fault)
  {
    var current := working;
    var i := 0;
    while i < |ms|
      invariant 0 <= i <= |ms|
      invariant RunMigrations(ms[..i], working, fault) == Success(current)
    {
      assert ms[..i + 1][..i] == ms[..i];
      if CommandFails(fault, i) {
        r := Failure(fault.value.error);
        RunMigrationsFailureSticks(ms, working, fault, i + 1);
        return;
      }
      current := current.(applied := current.applied + [ms[i].sqlStatement]);
      i := i + 1;
    }
    assert ms[..|ms|] == ms;
    return Success(current);
  }

  // ---------------------------------------------------------------------
  // One database's transaction
  // ---------------------------------------------------------------------

  /** How the try block ended: normally, with what the database would hold
      after commit, or with an exception and the context's status. */
  datatype Attempt = Done(working: DbState) | Threw(error: Exception, status: Tx.TransactionStatus)

  /** The catch block: roll back, then rethrow a `DatabaseException` as it
      is and wrap anything else with `kind`; a rollback that throws
      propagates its own exception instead. */
  function CatchBlock(stored: DbState, error: Exception, status: Tx.TransactionStatus, faults: Faults,
                      kind: DatabaseError, db: string, operation: string): (r: (DbState, Option<Exception>))
  {
    var rolledBack := Tx.RollbackStep(status, faults.rollbackFault);
    if rolledBack.thrown.Some? then (stored, rolledBack.thrown)
    else (stored, Some(Rethrow(error, kind, None, "Database:" + db, operation)))
  }

  /** The end of one database's transaction: commit after a normal try
      block, the catch block after an exception or a failed commit. The
      stored state changes only on a successful commit. */
  function Conclude(stored: DbState, attempt: Attempt, faults: Faults, kind: DatabaseError, db: string, operation: string)
    : (r: (DbState, Option<Exception>))
    ensures r.1.None? <==> attempt.Done? && faults.commitFault.None?
    ensures r.1.None? ==> r.0 == attempt.working
    ensures r.1.Some? ==> r.0 == stored
    ensures attempt.Done? && faults.commitFault.Some? ==>
      r.1.Some? && KindOf(r.1.value) == Some(TransactionError)
    ensures attempt.Threw? && attempt.status == Tx.InTransaction && faults.rollbackFault.None? ==>
      r.1 == Some(Rethrow(attempt.error, kind, None, "Database:" + db, operation))
  {
    match attempt
    case Done(working) =>
      var committed := Tx.CommitStep(Tx.InTransaction, faults.commitFault);
      if committed.thrown.None? then (working, None)
      else CatchBlock(stored, committed.thrown.value, committed.status, faults, kind, db, operation)
    case Threw(error, status) => CatchBlock(stored, error, status, faults, kind, db, operation)
  }

  /** The try block of `AutoCreateTablesIfBrandNewAsync` for one database: a
      database without a version is brand new; it gets the tables of its
      entities and version 1 when the configured version is 1, and is
      rolled back and refused with `TableCreateError` otherwise. */
  function AutoCreateAttempt(db: string, state: DbState, target: int32, allDefs: seq<EntityDef>, faults: Faults): Attempt
  {
    if faults.infoFault.Some? then Threw(faults.infoFault.value, Tx.InTransaction)
    else
      var version := VersionOf(ReadSystemInfo(db, state.sysTable));
      if version.Failure? then Threw(version.error, Tx.InTransaction)
      else if version.value != 0 then Done(state)
      else if target != 1 then
        var rolledBack := Tx.RollbackStep(Tx.InTransaction, faults.rollbackFault);
        if rolledBack.thrown.Some? then Threw(rolledBack.thrown.value, rolledBack.status)
        else Threw(Raise(TableCreateError, Some(""), Some(NotBrandNewMessage(db)), AutoCreateOperation), rolledBack.status)
      else
        var created := CreateTables(allDefs, db, state, faults.statementFault);
        if created.Failure? then Threw(created.error, Tx.InTransaction)
        else
          var updated := UpdateSystemVersion(created.value.sysTable, db, 1);
          if updated.Failure? then Threw(updated.error, Tx.InTransaction)
          else Done(created.value.(sysTable := updated.value))
  }

  /** The try block of `MigarateAsync` for one database: a database below
      the configured version runs the chain of its migrations, oldest first,
      and records the new version; one at or above it is left alone. */
  function MigrateAttempt(db: string, state: DbState, target: int32, migrations: seq<Migration>, faults: Faults): Attempt
  {
    if faults.infoFault.Some? then Threw(faults.infoFault.value, Tx.InTransaction)
    else
      var entries := ReadSystemInfo(db, state.sysTable);
      var version := VersionOf(entries);
      if version.Failure? then Threw(version.error, Tx.InTransaction)
      else if version.value >= target then Done(state)
      else
        var name := DatabaseNameOf(entries);
        if name.Failure? then Threw(name.error, Tx.InTransaction)
        else
          var ordered := OrderByOldVersion(MigrationsFor(migrations, name.value));
          var check := MigrationCheck(version.value, target, ordered);
          if check.Failure? then Threw(check.error, Tx.InTransaction)
          else if !check.value then
            Threw(Raise(MigrateError, Some(""), Some(InsufficientMigrationsMessage(name.value)), MigrateOperation), Tx.InTransaction)
          else
            var run := RunMigrations(ordered, state, faults.statementFault);
            if run.Failure? then Threw(run.error, Tx.InTransaction)
            else
              var updated := UpdateSystemVersion(run.value.sysTable, name.value, target);
              if updated.Failure? then Threw(updated.error, Tx.InTransaction)
              else Done(run.value.(sysTable := updated.value))
  }

  /** The two passes of `InitializeAsync` over the databases. */
  datatype Phase = CreatePhase(allDefs: seq<EntityDef>) | MigratePhase(migrations: seq<Migration>)

  function PhaseError(phase: Phase): DatabaseError {
    if phase.CreatePhase? then TableCreateError else MigrateError
  }

  function PhaseOperation(phase: Phase): string {
    if phase.CreatePhase? then AutoCreateOperation else MigrateOperation
  }

  function PhaseAttempt(phase: Phase, db: string, state: DbState, target: int32, faults: Faults): Attempt {
    match phase
    case CreatePhase(allDefs) => AutoCreateAttempt(db, state, target, allDefs, faults)
    case MigratePhase(migrations) => MigrateAttempt(db, state, target, migrations, faults)
  }

  /** One database in one pass: `BeginTransactionAsync` on its master
      connection, whose failure propagates as it is, then the try block and
      its conclusion. */
  function OnDatabase(phase: Phase, conns: map<string, string>, db: string, state: DbState, target: int32, faults: Faults)
    : (r: (DbState, Option<Exception>))
    ensures r.1.Some? ==> r.0 == state
    ensures Engines.BeginTransaction(conns, db).Failure? ==> r == (state, Some(Engines.BeginTransaction(conns, db).error))
  {
    var begun := Engines.BeginTransaction(conns, db);
    if begun.Failure? then (state, Some(begun.error))
    else Conclude(state, PhaseAttempt(phase, db, state, target, faults), faults, PhaseError(phase), db, PhaseOperation(phase))
  }

  /** `GetDatabaseNames().ForEachAsync(...)`: the databases one after the
      other, each seeing what the earlier ones stored; the first exception
      stops the pass. Only the databases visited change, and on an exception
      the failing database keeps what it held. */
  function EachDatabase(phase: Phase, conns: map<string, string>, names: seq<string>, stored: map<string, DbState>,
                        target: int32, faults: map<nat, Faults>): (r: (map<string, DbState>, Option<Exception>))
    ensures forall k :: k !in names ==> StateOf(r.0, k) == StateOf(stored, k)
    ensures forall k :: k in r.0 ==> k in stored || k in names
    decreases |names|
  {
    if names == [] then (stored, None)
    else
      var n := |names| - 1;
      var before := EachDatabase(phase, conns, names[..n], stored, target, faults);
      assert names == names[..n] + [names[n]];
      if before.1.Some? then before
      else
        var db := names[n];
        var here := OnDatabase(phase, conns, db, StateOf(before.0, db), target, FaultsAt(faults, n));
        if here.1.Some? then (before.0, here.1)
        else (before.0[db := here.0], None)
  }

  /** One more database in a pass that has not failed yet. */
  lemma {:induction false} EachDatabaseStep(phase: Phase, conns: map<string, string>, names: seq<string>,
                                            stored: map<string, DbState>, target: int32, faults: map<nat, Faults>,
                                            i: nat, result: map<string, DbState>)
    requires i < |names| && EachDatabase(phase, conns, names[..i], stored, target, faults) == (result, None)
    ensures var here := OnDatabase(phase, conns, names[i], StateOf(result, names[i]), target, FaultsAt(faults, i));
      EachDatabase(phase, conns, names[..i + 1], stored, target, faults) ==
        (if here.1.Some? then (result, here.1) else (result[names[i] := here.0], None))
  {
    assert names[..i + 1][..i] == names[..i];
  }

  lemma {:induction false} EachDatabaseFailureSticks(phase: Phase, conns: map<string, string>, names: seq<string>,
                                                     stored: map<string, DbState>, target: int32, faults: map<nat, Faults>, k: nat)
    requires k <= |names| && EachDatabase(phase, conns, names[..k], stored, target, faults).1.Some?
    ensures EachDatabase(phase, conns, names, stored, target, faults) == EachDatabase(phase, conns, names[..k], stored, target, faults)
    decreases |names|
  {
    if k < |names| {
      var n := |names| - 1;
      assert names[..n][..k] == names[..k];
      EachDatabaseFailureSticks(phase, conns, names[..n], stored, target, faults, k);
    } else {
      assert names[..k] == names;
    }
  }

  /** `MigarateAsync`: a migration that does not raise the version refuses
      the whole list before any database is touched. */
  function MigrateAll(conns: map<string, string>, names: seq<string>, stored: map<string, DbState>, target: int32,
                      migrations: seq<Migration>, faults: map<nat, Faults>): (r: (map<string, DbState>, Option<Exception>))
    ensures (exists i :: 0 <= i < |migrations| && migrations[i].newVersion <= migrations[i].oldVersion) ==>
      r.0 == stored && r.1.Some? && KindOf(r.1.value) == Some(MigrateError)
    ensures (forall i :: 0 <= i < |migrations| ==> migrations[i].newVersion > migrations[i].oldVersion) ==>
      r == EachDatabase(MigratePhase(migrations), conns, names, stored, target, faults)
  {
    if exists i :: 0 <= i < |migrations| && migrations[i].newVersion <= migrations[i].oldVersion then
      (stored, Some(Raise(MigrateError, Some(""), Some(MigrationVersionErrorMessage), MigrateOperation)))
    else EachDatabase(MigratePhase(migrations), conns, names, stored, target, faults)
  }

  /** `InitializeAsync(migrations)`: the create pass when the settings ask
      for it, then the migrate pass when there are migrations; an exception
      in the create pass skips the migrate pass. */
  function InitializeOutcome(settings: DatabaseSettings, conns: map<string, string>, names: seq<string>,
                             allDefs: seq<EntityDef>, migrations: seq<Migration>, stored: map<string, DbState>,
                             createFaults: map<nat, Faults>, migrateFaults: map<nat, Faults>)
    : (r: (map<string, DbState>, Option<Exception>))
    ensures !settings.automaticCreateTable && migrations == [] ==> r == (stored, None)
    ensures forall k :: k !in names ==> StateOf(r.0, k) == StateOf(stored, k)
  {
    var created :=
      if settings.automaticCreateTable then EachDatabase(CreatePhase(allDefs), conns, names, stored, settings.version, createFaults)
      else (stored, None);
    if created.1.Some? || |migrations| == 0 then created
    else MigrateAll(conns, names, created.0, settings.version, migrations, migrateFaults)
  }

  // ---------------------------------------------------------------------
  // The transactions, step by step
  // ---------------------------------------------------------------------

  /** How the try block ended, from the exception it threw (if any). */
  function AttemptOf(working: DbState, failure: Option<Exception>, status: Tx.TransactionStatus): Attempt {
    if failure.None? then Done(working) else Threw(failure.value, status)
  }

  /** `CommitAsync` after a normal try block; the catch block after an
      exception, or after a commit that threw. */
  method EndTransaction(context: Tx.TransactionContext, stored: DbState, working: DbState, failure: Option<Exception>,
                        faults: Faults, kind: DatabaseError, db: string, operation: string)
    returns (newState: DbState, thrown: Option<Exception>)
    requires failure.None? ==> context.status == Tx.InTransaction
    modifies context
    ensures (newState, thrown) == Conclude(stored, AttemptOf(working, failure, old(context.status)), faults, kind, db, operation)
  {
    var error: Exception;
    if failure.None? {
      var committed := Tx.CommitTransaction(context, faults.commitFault);
      if committed.None? {
        return working, None;
      }
      error := committed.value;
    } else {
      error := failure.value;
    }
    var rolledBack := Tx.RollbackTransaction(context, faults.rollbackFault);
    if rolledBack.Some? {
      return stored, rolledBack;
    }
    return stored, Some(Rethrow(error, kind, None, "Database:" + db, operation));
  }

  /** The body `AutoCreateTablesIfBrandNewAsync` runs for one database. */
  method AutoCreateTablesOfDatabase(engine: DatabaseEngine, allDefs: seq<EntityDef>, db: string, stored: DbState,
                                    target: int32, faults: Faults)
    returns (newState: DbState, thrown: Option<Exception>)
    ensures (newState, thrown) == OnDatabase(CreatePhase(allDefs), engine.connectionStrings, db, stored, target, faults)
  {
    var begun := Tx.BeginTransaction(engine, db);
    if begun.Failure? {
      return stored, Some(begun.error);
    }
    var context := begun.value;
    var working := stored;
    var failure: Option<Exception> := None;
    if faults.infoFault.Some? {
      failure := faults.infoFault;
    } else {
      var sys := engine.GetSystemInfo(db, stored.sysTable);
      var version := sys.Version();
      if version.Failure? {
        failure := Some(version.error);
      } else if version.value == 0 {
        if target != 1 {
          var rolledBack := Tx.RollbackTransaction(context, faults.rollbackFault);
          failure := if rolledBack.Some? then rolledBack
                     else Some(Raise(TableCreateError, Some(""), Some(NotBrandNewMessage(db)), AutoCreateOperation));
        } else {
          var created := CreateTablesByDatabase(allDefs, db, stored, faults.statementFault);
          if created.Failure? {
            failure := Some(created.error);
          } else {
            var updated := UpdateSystemVersion(created.value.sysTable, db, 1);
            if updated.Failure? {
              failure := Some(updated.error);
            } else {
              working := created.value.(sysTable := updated.value);
            }
          }
        }
      }
    }
    assert AttemptOf(working, failure, context.status) == AutoCreateAttempt(db, stored, target, allDefs, faults);
    newState, thrown := EndTransaction(context, stored, working, failure, faults, TableCreateError, db, AutoCreateOperation);
  }

  /** The body `MigarateAsync` runs for one database. */
  method MigrateDatabase(engine: DatabaseEngine, migrations: seq<Migration>, db: string, stored: DbState,
                         target: int32, faults: Faults)
    returns (newState: DbState, thrown: Option<Exception>)
    ensures (newState, thrown) == OnDatabase(MigratePhase(migrations), engine.connectionStrings, db, stored, target, faults)
  {
    var begun := Tx.BeginTransaction(engine, db);
    if begun.Failure? {
      return stored, Some(begun.error);
    }
    var context := begun.value;
    var working := stored;
    var failure: Option<Exception> := None;
    if faults.infoFault.Some? {
      failure := faults.infoFault;
    } else {
      var sys := engine.GetSystemInfo(db, stored.sysTable);
      var version := sys.Version();
      if version.Failure? {
        failure := Some(version.error);
      } else if version.value < target {
        var name := sys.DatabaseName();
        if name.Failure? {
          failure := Some(name.error);
        } else {
          var ordered := OrderByOldVersion(MigrationsFor(migrations, name.value));
          var check := CheckMigration(version.value, target, ordered);
          if check.Failure? {
            failure := Some(check.error);
          } else if !check.value {
            failure := Some(Raise(MigrateError, Some(""), Some(InsufficientMigrationsMessage(name.value)), MigrateOperation));
          } else {
            var run := RunMigrationStatements(ordered, stored, faults.statementFault);
            if run.Failure? {
              failure := Some(run.error);
            } else {
              var updated := UpdateSystemVersion(run.value.sysTable, name.value, target);
              if updated.Failure? {
                failure := Some(updated.error);
              } else {
                working := run.value.(sysTable := updated.value);
              }
            }
          }
        }
      }
    }
    assert AttemptOf(working, failure, context.status) == MigrateAttempt(db, stored, target, migrations, faults);
    newState, thrown := EndTransaction(context, stored, working, failure, faults, MigrateError, db, MigrateOperation);
  }

  /** `GetDatabaseNames().ForEachAsync(...)` for either pass. */
  method ForEachDatabase(engine: DatabaseEngine, phase: Phase, stored: map<string, DbState>, target: int32,
                         faults: map<nat, Faults>)
    returns (result: map<string, DbState>, thrown: Option<Exception>)
    ensures (result, thrown) == EachDatabase(phase, engine.connectionStrings, engine.DatabaseNames(), stored, target, faults)
  {
    var names := engine.DatabaseNames();
    result := stored;
    var i := 0;
    while i < |names|
      invariant 0 <= i <= |names|
      invariant EachDatabase(phase, engine.connectionStrings, names[..i], stored, target, faults) == (result, None)
    {
      EachDatabaseStep(phase, engine.connectionStrings, names, stored, target, faults, i, result);
      var db := names[i];
      var state, failed;
      if phase.CreatePhase? {
        state, failed := AutoCreateTablesOfDatabase(engine, phase.allDefs, db, StateOf(result, db), target, FaultsAt(faults, i));
      } else {
        state, failed := MigrateDatabase(engine, phase.migrations, db, StateOf(result, db), target, FaultsAt(faults, i));
      }
      if failed.Some? {
        EachDatabaseFailureSticks(phase, engine.connectionStrings, names, stored, target, faults, i + 1);
        return result, failed;
      }
      result := result[db := state];
      i := i + 1;
    }
    assert names[..|names|] == names;
    thrown := None;
  }

  /** `InitializeAsync(migrations)` against the databases as `stored`
      describes them. */
  method Initialize(settings: DatabaseSettings, engine: DatabaseEngine, factory: EntityDefFactory,
                    migrations: seq<Migration>, stored: map<string, DbState>,
                    createFaults: map<nat, Faults>, migrateFaults: map<nat, Faults>)
    returns (result: map<string, DbState>, thrown: Option<Exception>)
    requires factory.Valid()
    ensures (result, thrown) == InitializeOutcome(settings, engine.connectionStrings, engine.DatabaseNames(),
                                                  factory.Values(), migrations, stored, createFaults, migrateFaults)
  {
    result, thrown := stored, None;
    if settings.automaticCreateTable {
      result, thrown := ForEachDatabase(engine, CreatePhase(factory.Values()), stored, settings.version, createFaults);
      if thrown.Some? {
        return;
      }
    }
    if |migrations| > 0 {
      if exists i :: 0 <= i < |migrations| && migrations[i].newVersion <= migrations[i].oldVersion {
        return result, Some(Raise(MigrateError, Some(""), Some(MigrationVersionErrorMessage), MigrateOperation));
      }
      result, thrown := ForEachDatabase(engine, MigratePhase(migrations), result, settings.version, migrateFaults);
    }
  }

  // ---------------------------------------------------------------------
  // What start-up guarantees
  // ---------------------------------------------------------------------

  /** The system information always carries a database name. */
  lemma {:induction false} NameAlwaysPresent(db: string, table: Option<seq<Row>>)
    ensures DatabaseNameOf(ReadSystemInfo(db, table)).Success?
  {
    if table.Some? {
      var rows := table.value;
      if forall i :: 0 <= i < |rows| ==> rows[i].name != DatabaseNameKey {
        AddRowsUntouched(map[DatabaseNameKey := db], rows, DatabaseNameKey);
      } else {
        AddRowsLastWins(map[DatabaseNameKey := db], rows, DatabaseNameKey, LastIndexOf(rows, DatabaseNameKey));
      }
    }
  }

  /** A version can be read from stored rows only when one of them is the
      Version row, and what is read does not depend on the database's name. */
  lemma {:induction false} VersionFromRows(a: string, b: string, rows: seq<Row>)
    ensures VersionOf(ReadSystemInfo(a, Some(rows))).Success? ==> exists i :: 0 <= i < |rows| && rows[i].name == VersionKey
    ensures VersionOf(ReadSystemInfo(a, Some(rows))) == VersionOf(ReadSystemInfo(b, Some(rows)))
  {
    if forall i :: 0 <= i < |rows| ==> rows[i].name != VersionKey {
      AddRowsUntouched(map[DatabaseNameKey := a], rows, VersionKey);
      AddRowsUntouched(map[DatabaseNameKey := b], rows, VersionKey);
    } else {
      var k := LastIndexOf(rows, VersionKey);
      AddRowsLastWins(map[DatabaseNameKey := a], rows, VersionKey, k);
      AddRowsLastWins(map[DatabaseNameKey := b], rows, VersionKey, k);
    }
  }

  /** A brand-new database is refused when the configured version is not 1:
      the transaction is rolled back, the database is left as it was, and
      `TableCreateError` propagates. */
  lemma {:induction false} BrandNewNeedsVersionOne(conns: map<string, string>, db: string, state: DbState, target: int32,
                                                   allDefs: seq<EntityDef>, faults: Faults)
    requires MasterKey(db) in conns && state.sysTable.None? && target != 1
    requires faults.infoFault.None? && faults.rollbackFault.None?
    ensures OnDatabase(CreatePhase(allDefs), conns, db, state, target, faults) ==
      (state, Some(Raise(TableCreateError, Some(""), Some(NotBrandNewMessage(db)), AutoCreateOperation)))
  {
    NewDatabaseIsVersionZero(db);
  }

  /** A brand-new database with configured version 1 gets one table per
      definition of its entities, in order, and its system table, which then
      reads version 1 under the database's own name. */
  lemma {:induction false} BrandNewGetsItsTables(conns: map<string, string>, db: string, state: DbState,
                                                 allDefs: seq<EntityDef>, defs: seq<EntityDef>)
    requires MasterKey(db) in conns && state.sysTable.None?
    requires DefsByDatabase(allDefs, db) == Success(defs)
    requires forall i :: 0 <= i < |defs| ==> defs[i].isTableModel
    ensures var r := OnDatabase(CreatePhase(allDefs), conns, db, state, 1, NoFaults);
      r.1.None? &&
      r.0.tables == state.tables + TableNames(defs) && r.0.applied == state.applied &&
      VersionOf(ReadSystemInfo(db, r.0.sysTable)) == Success(1) &&
      DatabaseNameOf(ReadSystemInfo(db, r.0.sysTable)) == Success(db)
  {
    NewDatabaseIsVersionZero(db);
    forall i | 0 <= i < |allDefs|
      ensures CreatesCleanly(allDefs[i], db, None, i)
    {
      if EqualsIgnoreCase(allDefs[i].databaseName.value, db) {
        assert allDefs[i] in defs;
      }
    }
    CreateTablesOutcome(allDefs, db, state, None);
    CreateThenRead(db);
  }

  /** A database that already reports a version is left alone by the create
      pass. */
  lemma {:induction false} CreatePassSkipsInitialised(conns: map<string, string>, db: string, state: DbState, target: int32,
                                                      allDefs: seq<EntityDef>, faults: Faults)
    requires MasterKey(db) in conns && faults.infoFault.None? && faults.commitFault.None?
    requires VersionOf(ReadSystemInfo(db, state.sysTable)).Success?
    requires VersionOf(ReadSystemInfo(db, state.sysTable)).value != 0
    ensures OnDatabase(CreatePhase(allDefs), conns, db, state, target, faults) == (state, None)
  {
    assert AutoCreateAttempt(db, state, target, allDefs, faults) == Done(state);
  }

  /** Running the create pass on a database it has just created changes
      nothing. */
  lemma {:induction false} CreateIsIdempotent(conns: map<string, string>, db: string, state: DbState,
                                              allDefs: seq<EntityDef>, defs: seq<EntityDef>)
    requires MasterKey(db) in conns && state.sysTable.None?
    requires DefsByDatabase(allDefs, db) == Success(defs)
    requires forall i :: 0 <= i < |defs| ==> defs[i].isTableModel
    ensures var once := OnDatabase(CreatePhase(allDefs), conns, db, state, 1, NoFaults).0;
      OnDatabase(CreatePhase(allDefs), conns, db, once, 1, NoFaults) == (once, None)
  {
    BrandNewGetsItsTables(conns, db, state, allDefs, defs);
    var once := OnDatabase(CreatePhase(allDefs), conns, db, state, 1, NoFaults).0;
    CreatePassSkipsInitialised(conns, db, once, 1, allDefs, NoFaults);
  }

  /** The ordered migrations `MigarateAsync` picks for a database. */
  function PlanFor(migrations: seq<Migration>, name: string): seq<Migration> {
    OrderByOldVersion(MigrationsFor(migrations, name))
  }

  /** The plan holds exactly the migrations whose target is the database,
      in any case, ordered by the version they start from. */
  lemma {:induction false} PlanIsOrderedSelection(migrations: seq<Migration>, name: string)
    ensures SortedByOldVersion(PlanFor(migrations, name))
    ensures multiset(PlanFor(migrations, name)) == multiset(MigrationsFor(migrations, name))
    ensures forall m :: m in PlanFor(migrations, name) <==> m in migrations && EqualsIgnoreCase(m.targetDatabaseName, name)
  {
    OrderByOldVersionSorts(MigrationsFor(migrations, name));
    forall m
      ensures m in PlanFor(migrations, name) <==> m in MigrationsFor(migrations, name)
    {
      assert m in PlanFor(migrations, name) <==> m in multiset(PlanFor(migrations, name));
    }
  }

  /** Below the configured version with a complete chain, the try block
      runs the plan and writes the configured version over the rows. */
  lemma {:induction false} MigrateAttemptRuns(db: string, state: DbState, rows: seq<Row>, target: int32,
                                              migrations: seq<Migration>, version: int32)
    requires state.sysTable == Some(rows) && target != 1
    requires VersionOf(ReadSystemInfo(db, Some(rows))) == Success(version) && version < target
    requires DatabaseNameOf(ReadSystemInfo(db, Some(rows))).Success?
    requires IsChain(version, target, PlanFor(migrations, DatabaseNameOf(ReadSystemInfo(db, Some(rows))).value))
    ensures MigrateAttempt(db, state, target, migrations, NoFaults) ==
      Done(state.(applied := state.applied + Statements(PlanFor(migrations, DatabaseNameOf(ReadSystemInfo(db, Some(rows))).value)),
                  sysTable := Some(SetVersionRows(rows, Int32ToString(target)))))
  {
    var plan := PlanFor(migrations, DatabaseNameOf(ReadSystemInfo(db, Some(rows))).value);
    assert MigrationCheck(version, target, plan) == Success(true);
    assert RunMigrations(plan, state, None) == Success(state.(applied := state.applied + Statements(plan)));
  }

  /** A database below the configured version whose migrations form a
      chain to it runs their statements oldest first and then reads the
      configured version, keeping its name and tables. */
  lemma {:induction false} MigrationReachesTarget(conns: map<string, string>, db: string, state: DbState, rows: seq<Row>,
                                                  target: int32, migrations: seq<Migration>, version: int32)
    requires MasterKey(db) in conns && state.sysTable == Some(rows) && target != 1
    requires VersionOf(ReadSystemInfo(db, Some(rows))) == Success(version) && version < target
    requires DatabaseNameOf(ReadSystemInfo(db, Some(rows))).Success?
    requires IsChain(version, target, PlanFor(migrations, DatabaseNameOf(ReadSystemInfo(db, Some(rows))).value))
    ensures var r := OnDatabase(MigratePhase(migrations), conns, db, state, target, NoFaults);
      var plan := PlanFor(migrations, DatabaseNameOf(ReadSystemInfo(db, Some(rows))).value);
      r.1.None? &&
      r.0.applied == state.applied + Statements(plan) && r.0.tables == state.tables &&
      VersionOf(ReadSystemInfo(db, r.0.sysTable)) == Success(target) &&
      DatabaseNameOf(ReadSystemInfo(db, r.0.sysTable)) == DatabaseNameOf(ReadSystemInfo(db, Some(rows)))
  {
    var plan := PlanFor(migrations, DatabaseNameOf(ReadSystemInfo(db, Some(rows))).value);
    var written := Some(SetVersionRows(rows, Int32ToString(target)));
    var working := state.(applied := state.applied + Statements(plan), sysTable := written);
    MigrateAttemptRuns(db, state, rows, target, migrations, version);
    assert PhaseAttempt(MigratePhase(migrations), db, state, target, NoFaults) == Done(working);
    assert Engines.BeginTransaction(conns, db).Success?;
    assert OnDatabase(MigratePhase(migrations), conns, db, state, target, NoFaults) == (working, None);
    VersionFromRows(db, db, rows);
    UpdateThenRead(db, rows, target);
    assert UpdateSystemVersion(Some(rows), db, target) == Success(written);
  }

  /** A database below the configured version without a complete chain of
      migrations is refused with `MigrateError` and left as it was. */
  lemma {:induction false} MigrationGapRefused(conns: map<string, string>, db: string, state: DbState,
                                               target: int32, migrations: seq<Migration>, version: int32)
    requires MasterKey(db) in conns
    requires VersionOf(ReadSystemInfo(db, state.sysTable)) == Success(version) && version < target
    requires DatabaseNameOf(ReadSystemInfo(db, state.sysTable)).Success?
    requires !IsChain(version, target, PlanFor(migrations, DatabaseNameOf(ReadSystemInfo(db, state.sysTable)).value))
    ensures var r := OnDatabase(MigratePhase(migrations), conns, db, state, target, NoFaults);
      r.0 == state && r.1.Some? && KindOf(r.1.value) == Some(MigrateError)
  {
    var name := DatabaseNameOf(ReadSystemInfo(db, state.sysTable)).value;
    var plan := PlanFor(migrations, name);
    var attempt := MigrateAttempt(db, state, target, migrations, NoFaults);
    var error := if plan == [] then Other("ArgumentOutOfRangeException", "index")
                 else Raise(MigrateError, Some(""), Some(InsufficientMigrationsMessage(name)), MigrateOperation);
    assert attempt == Threw(error, Tx.InTransaction);
    assert KindOf(Rethrow(error, MigrateError, None, "Database:" + db, MigrateOperation)) == Some(MigrateError);
  }

  /** What a successful pass leaves in a database: after the create pass a
      version other than 0, after the migrate pass at least the configured
      version. */
  ghost predicate Settled(phase: Phase, db: string, state: DbState, target: int32) {
    var version := VersionOf(ReadSystemInfo(db, state.sysTable));
    version.Success? && (if phase.CreatePhase? then version.value != 0 else version.value >= target)
  }

  lemma {:induction false} CreateAttemptSettles(db: string, state: DbState, target: int32, allDefs: seq<EntityDef>, faults: Faults)
    ensures var a := AutoCreateAttempt(db, state, target, allDefs, faults);
      a.Done? ==> Settled(CreatePhase(allDefs), db, a.working, target)
  {
    var a := AutoCreateAttempt(db, state, target, allDefs, faults);
    if a.Done? && VersionOf(ReadSystemInfo(db, state.sysTable)).value == 0 {
      CreateTablesOutcome(allDefs, db, state, faults.statementFault);
      var created := CreateTables(allDefs, db, state, faults.statementFault).value;
      assert created.sysTable == state.sysTable;
      assert UpdateSystemVersion(created.sysTable, db, 1).Success?;
      CreateThenRead(db);
      assert a.working.sysTable == Some(SeedRows(db));
    }
  }

  lemma {:induction false} MigrateAttemptSettles(db: string, state: DbState, target: int32, migrations: seq<Migration>, faults: Faults)
    ensures var a := MigrateAttempt(db, state, target, migrations, faults);
      a.Done? ==> Settled(MigratePhase(migrations), db, a.working, target)
  {
    var a := MigrateAttempt(db, state, target, migrations, faults);
    if a.Done? && VersionOf(ReadSystemInfo(db, state.sysTable)).value < target {
      var name := DatabaseNameOf(ReadSystemInfo(db, state.sysTable)).value;
      var plan := PlanFor(migrations, name);
      var run := RunMigrations(plan, state, faults.statementFault).value;
      assert run.sysTable == state.sysTable;
      var updated := UpdateSystemVersion(state.sysTable, name, target);
      assert updated.Success? && a.working.sysTable == updated.value;
      if target == 1 {
        CreateThenRead(name);
        VersionFromRows(name, db, SeedRows(name));
      } else {
        NewDatabaseIsVersionZero(db);
        var rows := state.sysTable.value;
        VersionFromRows(db, db, rows);
        UpdateThenRead(db, rows, target);
        assert updated == UpdateSystemVersion(Some(rows), db, target);
      }
    }
  }

  lemma {:induction false} OnDatabaseSettles(phase: Phase, conns: map<string, string>, db: string, state: DbState,
                                             target: int32, faults: Faults)
    ensures var r := OnDatabase(phase, conns, db, state, target, faults);
      r.1.None? ==> Settled(phase, db, r.0, target)
  {
    match phase
    case CreatePhase(allDefs) => CreateAttemptSettles(db, state, target, allDefs, faults);
    case MigratePhase(migrations) => MigrateAttemptSettles(db, state, target, migrations, faults);
  }

  /** Storing a settled state for one database keeps the others settled. */
  lemma {:induction false} SettledAfterStore(phase: Phase, names: seq<string>, m: map<string, DbState>, db: string,
                                             state: DbState, target: int32)
    requires forall x :: x in names ==> Settled(phase, x, StateOf(m, x), target)
    requires Settled(phase, db, state, target)
    ensures forall x :: x in names + [db] ==> Settled(phase, x, StateOf(m[db := state], x), target)
  {
    forall x | x in names + [db]
      ensures Settled(phase, x, StateOf(m[db := state], x), target)
    {
      if x != db {
        assert StateOf(m[db := state], x) == StateOf(m, x);
      }
    }
  }

  /** Storing the outcome of one visit: a settled database joins the
      settled ones, whatever the visit did to the others. */
  lemma {:induction false} StoreSettles(phase: Phase, names: seq<string>, n: nat, result: map<string, DbState>,
                                        here: (DbState, Option<Exception>), r: (map<string, DbState>, Option<Exception>),
                                        target: int32)
    requires n < |names|
    requires r == (if here.1.Some? then (result, here.1) else (result[names[n] := here.0], None))
    requires here.1.None? ==> Settled(phase, names[n], here.0, target)
    requires forall x :: x in names[..n] ==> Settled(phase, x, StateOf(result, x), target)
    ensures r.1.None? ==> forall x :: x in names[..n + 1] ==> Settled(phase, x, StateOf(r.0, x), target)
  {
    if here.1.None? {
      SettledAfterStore(phase, names[..n], result, names[n], here.0, target);
      assert names[..n + 1] == names[..n] + [names[n]];
    }
  }

  /** A database visited without an exception joins the settled ones. */
  lemma {:induction false} VisitSettles(phase: Phase, conns: map<string, string>, names: seq<string>,
                                        stored: map<string, DbState>, target: int32, faults: map<nat, Faults>,
                                        n: nat, result: map<string, DbState>)
    requires n < |names| && EachDatabase(phase, conns, names[..n], stored, target, faults) == (result, None)
    requires forall x :: x in names[..n] ==> Settled(phase, x, StateOf(result, x), target)
    ensures var r := EachDatabase(phase, conns, names[..n + 1], stored, target, faults);
      r.1.None? ==> forall x :: x in names[..n + 1] ==> Settled(phase, x, StateOf(r.0, x), target)
  {
    var here := OnDatabase(phase, conns, names[n], StateOf(result, names[n]), target, FaultsAt(faults, n));
    EachDatabaseStep(phase, conns, names, stored, target, faults, n, result);
    OnDatabaseSettles(phase, conns, names[n], StateOf(result, names[n]), target, FaultsAt(faults, n));
    StoreSettles(phase, names, n, result, here, EachDatabase(phase, conns, names[..n + 1], stored, target, faults), target);
  }

  /** A pass that throws nothing leaves every database it visited settled. */
  lemma {:induction false} EachDatabaseSettles(phase: Phase, conns: map<string, string>, names: seq<string>,
                                               stored: map<string, DbState>, target: int32, faults: map<nat, Faults>)
    ensures var r := EachDatabase(phase, conns, names, stored, target, faults);
      r.1.None? ==> forall db :: db in names ==> Settled(phase, db, StateOf(r.0, db), target)
    decreases |names|
  {
    var r := EachDatabase(phase, conns, names, stored, target, faults);
    if names != [] && r.1.None? {
      var n := |names| - 1;
      EachDatabaseSettles(phase, conns, names[..n], stored, target, faults);
      var before := EachDatabase(phase, conns, names[..n], stored, target, faults);
      assert names[..n + 1] == names;
      assert before.1.None?;
      VisitSettles(phase, conns, names, stored, target, faults, n, before.0);
    }
  }

  /** `InitializeAsync` with migrations that completes leaves every
      configured database at the configured version or above. */
  lemma {:induction false} InitializeReachesVersion(settings: DatabaseSettings, conns: map<string, string>, names: seq<string>,
                                                    allDefs: seq<EntityDef>, migrations: seq<Migration>, stored: map<string, DbState>,
                                                    createFaults: map<nat, Faults>, migrateFaults: map<nat, Faults>)
    requires |migrations| > 0
    ensures var r := InitializeOutcome(settings, conns, names, allDefs, migrations, stored, createFaults, migrateFaults);
      r.1.None? ==> forall db :: db in names ==> Settled(MigratePhase(migrations), db, StateOf(r.0, db), settings.version)
  {
    var created :=
      if settings.automaticCreateTable then EachDatabase(CreatePhase(allDefs), conns, names, stored, settings.version, createFaults)
      else (stored, None);
    EachDatabaseSettles(MigratePhase(migrations), conns, names, created.0, settings.version, migrateFaults);
  }
}
