/** The database engines (`MySQLEngine`, `SQLiteEngine`): the master/replica
    connection-string table, the choice of connection for each kind of
    command, and the reserved system table `tb_sys_info` that records a
    database's name and schema version. Drivers are not modelled: a
    connection is named by its connection string, and what the database
    holds is passed in. */
module Engines {
  import opened Common
  import opened DatabaseErrors
  import opened SystemInfos

  /** `DatabaseEngineType`; `OtherEngine` stands for any value the dialect
      switches do not name. */
  datatype EngineType = MySQL | SQLite | OtherEngine

  /** The two engines that exist. */
  type ConcreteEngine = e: EngineType | e != OtherEngine witness MySQL

  /** `DatabaseConnectionSettings` (MySQL) / `SchemaInfo` (SQLite). */
  datatype ConnectionSettings = ConnectionSettings(databaseName: string, connectionString: string, isMaster: bool)

  predicate IsMasterOf(c: ConnectionSettings, db: string) { c.isMaster && c.databaseName == db }
  predicate IsReplicaOf(c: ConnectionSettings, db: string) { !c.isMaster && c.databaseName == db }

  /** Dictionary key of a database's write (master) connection. */
  function MasterKey(db: string): string { db + "_1" }
  /** Dictionary key of a database's read connection. */
  function ReadKey(db: string): string { db + "_0" }

  /** The two key forms never collide, and each determines its database. */
  lemma {:induction false} KeysDistinct(a: string, b: string)
    ensures MasterKey(a) == MasterKey(b) <==> a == b
    ensures ReadKey(a) == ReadKey(b) <==> a == b
    ensures MasterKey(a) != ReadKey(b)
  {
    if MasterKey(a) == MasterKey(b) {
      assert a == MasterKey(a)[..|a|] && b == MasterKey(b)[..|b|];
    }
    if ReadKey(a) == ReadKey(b) {
      assert a == ReadKey(a)[..|a|] && b == ReadKey(b)[..|b|];
    }
  }

  // ---- SetConnectionStrings ----

  /** One pass of the loop: a master entry overwrites `name_1` and fills
      `name_0` only when it is absent; any other entry overwrites `name_0`. */
  function Register(d: map<string, string>, c: ConnectionSettings): map<string, string>
  {
    if c.isMaster then
      var d1 := d[MasterKey(c.databaseName) := c.connectionString];
      if ReadKey(c.databaseName) in d1 then d1 else d1[ReadKey(c.databaseName) := c.connectionString]
    else d[ReadKey(c.databaseName) := c.connectionString]
  }

  /** The dictionary after the loop has seen `conns`, in order. */
  function Table(conns: seq<ConnectionSettings>): map<string, string>
  {
    if conns == [] then map[] else Register(Table(conns[..|conns| - 1]), conns[|conns| - 1])
  }

  /** One pass of the loop on `FirstDefaultDatabaseName`: replaced while it
      is null or empty. */
  function PickFirst(first: NString, c: ConnectionSettings): NString
  {
    if IsNullOrEmpty(first) then Some(c.databaseName) else first
  }

  function FirstName(start: NString, conns: seq<ConnectionSettings>): NString
  {
    if conns == [] then start else PickFirst(FirstName(start, conns[..|conns| - 1]), conns[|conns| - 1])
  }

  /** How one entry changes what the dictionary says about `db`. */
  lemma {:induction false} RegisterEffect(d: map<string, string>, c: ConnectionSettings, db: string)
    ensures MasterKey(db) in Register(d, c) <==> MasterKey(db) in d || IsMasterOf(c, db)
    ensures IsMasterOf(c, db) ==> Register(d, c)[MasterKey(db)] == c.connectionString
    ensures !IsMasterOf(c, db) && MasterKey(db) in d ==> Register(d, c)[MasterKey(db)] == d[MasterKey(db)]
    ensures ReadKey(db) in Register(d, c) <==> ReadKey(db) in d || c.databaseName == db
    ensures IsReplicaOf(c, db) ==> Register(d, c)[ReadKey(db)] == c.connectionString
    ensures IsMasterOf(c, db) && ReadKey(db) !in d ==> Register(d, c)[ReadKey(db)] == c.connectionString
    ensures !IsReplicaOf(c, db) && ReadKey(db) in d ==> Register(d, c)[ReadKey(db)] == d[ReadKey(db)]
    ensures forall k :: k in Register(d, c) ==> k in d || k == MasterKey(c.databaseName) || k == ReadKey(c.databaseName)
  {
    KeysDistinct(c.databaseName, db);
  }

  /** The `_1` entry of a database exists exactly when some master entry
      names it, and holds the connection string of the last such entry. */
  lemma {:induction false} MasterEntry(conns: seq<ConnectionSettings>, db: string)
    ensures MasterKey(db) in Table(conns) <==> exists i :: 0 <= i < |conns| && IsMasterOf(conns[i], db)
    ensures forall i :: (0 <= i < |conns| && IsMasterOf(conns[i], db) &&
                        (forall j :: i < j < |conns| ==> !IsMasterOf(conns[j], db))) ==>
      MasterKey(db) in Table(conns) && Table(conns)[MasterKey(db)] == conns[i].connectionString
  {
    if conns != [] {
      var n := |conns| - 1;
      var init := conns[..n];
      MasterEntry(init, db);
      RegisterEffect(Table(init), conns[n], db);
      forall i | 0 <= i < n && IsMasterOf(init[i], db)
        ensures IsMasterOf(conns[i], db)
      {
      }
      forall i | 0 <= i < |conns| && IsMasterOf(conns[i], db)
        ensures i == n || IsMasterOf(init[i], db)
      {
      }
    }
  }

  /** The `_0` entry of a database exists exactly when some entry names it. */
  lemma {:induction false} ReadEntryPresent(conns: seq<ConnectionSettings>, db: string)
    ensures ReadKey(db) in Table(conns) <==> exists i :: 0 <= i < |conns| && conns[i].databaseName == db
  {
    if conns != [] {
      var n := |conns| - 1;
      ReadEntryPresent(conns[..n], db);
      RegisterEffect(Table(conns[..n]), conns[n], db);
      if exists i :: 0 <= i < |conns| && conns[i].databaseName == db {
        var i :| 0 <= i < |conns| && conns[i].databaseName == db;
        if i < n {
          assert conns[..n][i] == conns[i];
        }
      }
    }
  }

  /** The `_0` entry holds the connection string of the last replica entry. */
  lemma {:induction false} ReadEntryFromReplica(conns: seq<ConnectionSettings>, db: string, i: nat)
    requires i < |conns| && IsReplicaOf(conns[i], db)
    requires forall j :: i < j < |conns| ==> !IsReplicaOf(conns[j], db)
    ensures ReadKey(db) in Table(conns) && Table(conns)[ReadKey(db)] == conns[i].connectionString
  {
    var n := |conns| - 1;
    RegisterEffect(Table(conns[..n]), conns[n], db);
    if i < n {
      assert conns[..n][i] == conns[i];
      assert forall j :: i < j < n ==> conns[..n][j] == conns[j];
      ReadEntryFromReplica(conns[..n], db, i);
    }
  }

  /** A database with no replica entry reads from its first master entry:
      later masters do not overwrite the `_0` key. */
  lemma {:induction false} ReadEntryFromMaster(conns: seq<ConnectionSettings>, db: string, i: nat)
    requires forall j :: 0 <= j < |conns| ==> !IsReplicaOf(conns[j], db)
    requires i < |conns| && IsMasterOf(conns[i], db)
    requires forall j :: 0 <= j < i ==> !IsMasterOf(conns[j], db)
    ensures ReadKey(db) in Table(conns) && Table(conns)[ReadKey(db)] == conns[i].connectionString
  {
    var n := |conns| - 1;
    var init := conns[..n];
    RegisterEffect(Table(init), conns[n], db);
    if i < n {
      assert init[i] == conns[i];
      assert forall j :: 0 <= j < n ==> init[j] == conns[j];
      ReadEntryFromMaster(init, db, i);
    } else {
      assert forall j :: 0 <= j < n ==> init[j] == conns[j];
      ReadEntryPresent(init, db);
    }
  }

  /** Every key in the dictionary comes from some entry. */
  lemma {:induction false} TableKeys(conns: seq<ConnectionSettings>)
    ensures forall k :: k in Table(conns) ==>
      exists i :: 0 <= i < |conns| && (k == MasterKey(conns[i].databaseName) || k == ReadKey(conns[i].databaseName))
  {
    if conns != [] {
      var n := |conns| - 1;
      TableKeys(conns[..n]);
      RegisterEffect(Table(conns[..n]), conns[n], conns[n].databaseName);
      forall k | k in Table(conns)
        ensures exists i :: 0 <= i < |conns| && (k == MasterKey(conns[i].databaseName) || k == ReadKey(conns[i].databaseName))
      {
        if k !in Table(conns[..n]) {
          assert k == MasterKey(conns[n].databaseName) || k == ReadKey(conns[n].databaseName);
        } else {
          var i :| 0 <= i < n && (k == MasterKey(conns[..n][i].databaseName) || k == ReadKey(conns[..n][i].databaseName));
          assert conns[..n][i] == conns[i];
        }
      }
    }
  }

  lemma {:induction false} FirstNameAppend(start: NString, conns: seq<ConnectionSettings>, more: seq<ConnectionSettings>)
    ensures FirstName(start, conns + more) == FirstName(FirstName(start, conns), more)
    decreases |more|
  {
    if more == [] {
      assert conns + more == conns;
    } else {
      var m := |more| - 1;
      assert (conns + more)[..|conns + more| - 1] == conns + more[..m];
      FirstNameAppend(start, conns, more[..m]);
    }
  }

  /** Once a non-empty name has been picked, later entries leave it alone. */
  lemma {:induction false} FirstNameSticks(first: NString, more: seq<ConnectionSettings>)
    requires !IsNullOrEmpty(first)
    ensures FirstName(first, more) == first
  {
    if more != [] {
      FirstNameSticks(first, more[..|more| - 1]);
    }
  }

  /** `FirstDefaultDatabaseName` is the first non-empty database name; it is
      null only when there are no entries, and empty when every name is. */
  lemma {:induction false} FirstNameIsFirstNonEmpty(conns: seq<ConnectionSettings>)
    ensures conns == [] <==> FirstName(None, conns) == None
    ensures forall i :: (0 <= i < |conns| && conns[i].databaseName != "" &&
                        (forall j :: 0 <= j < i ==> conns[j].databaseName == "")) ==>
      FirstName(None, conns) == Some(conns[i].databaseName)
    ensures (forall j :: 0 <= j < |conns| ==> conns[j].databaseName == "") && conns != [] ==>
      FirstName(None, conns) == Some("")
  {
    if conns != [] {
      var n := |conns| - 1;
      FirstNameIsFirstNonEmpty(conns[..n]);
      assert FirstName(None, conns) == PickFirst(FirstName(None, conns[..n]), conns[n]);
      forall i | 0 <= i < |conns| && conns[i].databaseName != "" &&
          (forall j :: 0 <= j < i ==> conns[j].databaseName == "")
        ensures FirstName(None, conns) == Some(conns[i].databaseName)
      {
        if i < n {
          assert conns[..n][i] == conns[i];
          assert forall j :: 0 <= j < i ==> conns[..n][j].databaseName == "";
        } else {
          assert forall j :: 0 <= j < n ==> conns[..n][j].databaseName == "";
        }
      }
      if forall j :: 0 <= j < |conns| ==> conns[j].databaseName == "" {
        assert forall j :: 0 <= j < n ==> conns[..n][j].databaseName == "";
      }
    }
  }

  // ---- GetConnectionString and the routing of commands ----

  /** `GetConnectionString(dbName, isMaster)`: a missing key is a `KeyNotFoundException`. */
  function Lookup(d: map<string, string>, db: string, isMaster: bool): (r: Result<string, Exception>)
    ensures isMaster ==> (r.Success? <==> MasterKey(db) in d)
    ensures !isMaster ==> (r.Success? <==> ReadKey(db) in d)
    ensures r.Failure? ==> r.error.Other? && r.error.typeName == "KeyNotFoundException"
  {
    var key := if isMaster then MasterKey(db) else ReadKey(db);
    if key in d then Success(d[key]) else Failure(Other("KeyNotFoundException", key))
  }

  /** An open transaction, known by the connection it was begun on. */
  datatype DbTransaction = DbTransaction(connectionString: string)

  /** Where a command is executed. */
  datatype Channel = Direct(connectionString: string) | ViaTransaction(tx: DbTransaction)

  /** `ExecuteCommandReader`/`ExecuteCommandScalar` (and the SQL and MySQL
      stored-procedure variants): inside a transaction the transaction's own
      connection, otherwise a new connection to the master or the read
      replica as `useMaster` says. */
  function Route(d: map<string, string>, tx: Option<DbTransaction>, db: string, useMaster: bool): (r: Result<Channel, Exception>)
    ensures tx.Some? ==> r == Success(ViaTransaction(tx.value))
    ensures tx.None? ==> (r.Success? <==> Lookup(d, db, useMaster).Success?)
    ensures tx.None? && r.Success? ==> r == Success(Direct(Lookup(d, db, useMaster).value))
  {
    if tx.Some? then Success(ViaTransaction(tx.value))
    else
      var cs := Lookup(d, db, useMaster);
      if cs.Success? then Success(Direct(cs.value)) else Failure(cs.error)
  }

  /** `ExecuteCommandNonQuery`: writes outside a transaction go to the master. */
  function NonQueryRoute(d: map<string, string>, tx: Option<DbTransaction>, db: string): (r: Result<Channel, Exception>)
    ensures tx.None? ==> (r.Success? <==> MasterKey(db) in d)
    ensures tx.None? && r.Success? ==> MasterKey(db) in d && r.value == Direct(d[MasterKey(db)])
    ensures tx.Some? ==> r == Success(ViaTransaction(tx.value))
  {
    Route(d, tx, db, true)
  }

  /** The stored-procedure entry points: MySQL routes them like commands
      (non-query to the master); SQLite always throws. */
  function StoredProcedureRoute(engine: ConcreteEngine, d: map<string, string>, tx: Option<DbTransaction>,
                                db: string, useMaster: bool, nonQuery: bool): (r: Result<Channel, Exception>)
    ensures engine == SQLite ==> r == Failure(Other("NotImplementedException", "SQLite Not Support Stored Procedure"))
    ensures engine == MySQL && nonQuery ==> r == NonQueryRoute(d, tx, db)
    ensures engine == MySQL && !nonQuery ==> r == Route(d, tx, db, useMaster)
  {
    if engine == SQLite then Failure(Other("NotImplementedException", "SQLite Not Support Stored Procedure"))
    else if nonQuery then NonQueryRoute(d, tx, db)
    else Route(d, tx, db, useMaster)
  }

  /** `BeginTransaction(dbName)`: a transaction on a new master connection. */
  function BeginTransaction(d: map<string, string>, db: string): (r: Result<DbTransaction, Exception>)
    ensures r.Success? <==> MasterKey(db) in d
    ensures r.Success? ==> r.value.connectionString == d[MasterKey(db)]
  {
    var cs := Lookup(d, db, true);
    if cs.Success? then Success(DbTransaction(cs.value)) else Failure(cs.error)
  }

  /** Routing against the configured connections: a transaction (and any
      write outside one) needs a master entry for the database, a plain read
      any entry; a command inside a transaction never consults the table. */
  lemma RoutingByConfiguration(conns: seq<ConnectionSettings>, db: string, tx: DbTransaction, useMaster: bool)
    ensures BeginTransaction(Table(conns), db).Success? <==> exists i :: 0 <= i < |conns| && IsMasterOf(conns[i], db)
    ensures NonQueryRoute(Table(conns), None, db).Success? <==> exists i :: 0 <= i < |conns| && IsMasterOf(conns[i], db)
    ensures Route(Table(conns), None, db, false).Success? <==> exists i :: 0 <= i < |conns| && conns[i].databaseName == db
    ensures Route(Table(conns), Some(tx), db, useMaster) == Success(ViaTransaction(tx))
  {
    MasterEntry(conns, db);
    ReadEntryPresent(conns, db);
  }

  // ---- the system table ----

  /** A row of `tb_sys_info`. */
  datatype Row = Row(name: string, value: string)

  /** The rows the create script inserts. */
  function SeedRows(db: string): (r: seq<Row>)
    ensures |r| == 2
  {
    [Row(VersionKey, "1"), Row(DatabaseNameKey, db)]
  }

  /** The rows after `UPDATE ... SET Value = text WHERE Name = 'Version'`. */
  function SetVersionRows(rows: seq<Row>, text: string): (r: seq<Row>)
    ensures |r| == |rows|
    ensures forall i :: 0 <= i < |rows| ==> r[i].name == rows[i].name
    ensures forall i :: 0 <= i < |rows| ==> r[i].value == (if rows[i].name == VersionKey then text else rows[i].value)
  {
    if rows == [] then []
    else [if rows[0].name == VersionKey then Row(VersionKey, text) else rows[0]] + SetVersionRows(rows[1..], text)
  }

  /** `UpdateSystemVersion(db, version)` on what the database holds: version 1
      runs the create script (which fails when the table already exists);
      any other version updates the Version row (which fails when there is no
      table). `None` is a database without the system table. */
  function UpdateSystemVersion(table: Option<seq<Row>>, db: string, version: int32): (r: Result<Option<seq<Row>>, Exception>)
    ensures version == 1 ==> (r.Success? <==> table.None?)
    ensures version == 1 && r.Success? ==> r.value == Some(SeedRows(db))
    ensures version != 1 ==> (r.Success? <==> table.Some?)
    ensures version != 1 && r.Success? ==> r.value == Some(SetVersionRows(table.value, Int32ToString(version)))
  {
    if version == 1 then
      if table.Some? then Failure(Other("DbException", "table tb_sys_info already exists"))
      else Success(Some(SeedRows(db)))
    else
      if table.None? then Failure(Other("DbException", "no such table: tb_sys_info"))
      else Success(Some(SetVersionRows(table.value, Int32ToString(version))))
  }

  /** The dictionary after `Add(row.Name, row.Value)` for each row in order. */
  function AddRows(d: map<string, string>, rows: seq<Row>): map<string, string>
  {
    if rows == [] then d else AddRows(d, rows[..|rows| - 1])[rows[|rows| - 1].name := rows[|rows| - 1].value]
  }

  /** `GetSystemInfo`: without the table, the database name and version 0;
      otherwise the database name overwritten by whatever the rows hold. */
  function ReadSystemInfo(db: string, table: Option<seq<Row>>): map<string, string>
  {
    if table.None? then map[DatabaseNameKey := db, VersionKey := Int32ToString(0)]
    else AddRows(map[DatabaseNameKey := db], table.value)
  }

  /** A name no row has keeps its earlier entry. */
  lemma {:induction false} AddRowsUntouched(d: map<string, string>, rows: seq<Row>, name: string)
    requires forall i :: 0 <= i < |rows| ==> rows[i].name != name
    ensures name in AddRows(d, rows) <==> name in d
    ensures name in d ==> AddRows(d, rows)[name] == d[name]
  {
    if rows != [] {
      var n := |rows| - 1;
      assert forall i :: 0 <= i < n ==> rows[..n][i] == rows[i];
      AddRowsUntouched(d, rows[..n], name);
    }
  }

  /** The last row with a given name decides its entry. */
  lemma {:induction false} AddRowsLastWins(d: map<string, string>, rows: seq<Row>, name: string, i: nat)
    requires i < |rows| && rows[i].name == name
    requires forall j :: i < j < |rows| ==> rows[j].name != name
    ensures name in AddRows(d, rows) && AddRows(d, rows)[name] == rows[i].value
  {
    var n := |rows| - 1;
    if i < n {
      assert rows[..n][i] == rows[i];
      assert forall j :: i < j < n ==> rows[..n][j] == rows[j];
      AddRowsLastWins(d, rows[..n], name, i);
    }
  }

  /** A database without the system table reports version 0 under its own name. */
  lemma NewDatabaseIsVersionZero(db: string)
    ensures VersionOf(ReadSystemInfo(db, None)) == Success(0)
    ensures DatabaseNameOf(ReadSystemInfo(db, None)) == Success(db)
  {
    Int32RoundTrip(0);
  }

  /** Writing version 1 to a database without the system table creates it,
      and reading it back gives version 1 and the database's name. */
  lemma {:induction false} CreateThenRead(db: string)
    ensures UpdateSystemVersion(None, db, 1) == Success(Some(SeedRows(db)))
    ensures VersionOf(ReadSystemInfo(db, Some(SeedRows(db)))) == Success(1)
    ensures DatabaseNameOf(ReadSystemInfo(db, Some(SeedRows(db)))) == Success(db)
  {
    var rows := SeedRows(db);
    AddRowsLastWins(map[DatabaseNameKey := db], rows, VersionKey, 0);
    AddRowsLastWins(map[DatabaseNameKey := db], rows, DatabaseNameKey, 1);
    assert ReadSystemInfo(db, Some(rows))[VersionKey] == "1";
    assert Int32ToString(1) == "1";
    Int32RoundTrip(1);
  }

  /** Writing any other version to a table that has a Version row, and
      reading it back, gives that version; the stored name is unchanged. */
  lemma {:induction false} UpdateThenRead(db: string, rows: seq<Row>, version: int32)
    requires version != 1
    requires exists i :: 0 <= i < |rows| && rows[i].name == VersionKey
    ensures UpdateSystemVersion(Some(rows), db, version).Success?
    ensures VersionOf(ReadSystemInfo(db, UpdateSystemVersion(Some(rows), db, version).value)) == Success(version)
    ensures DatabaseNameOf(ReadSystemInfo(db, UpdateSystemVersion(Some(rows), db, version).value)) ==
            DatabaseNameOf(ReadSystemInfo(db, Some(rows)))
  {
    var updated := SetVersionRows(rows, Int32ToString(version));
    assert UpdateSystemVersion(Some(rows), db, version) == Success(Some(updated));
    UpdatedVersionReads(db, rows, version);
    UpdateKeepsName(db, rows, Int32ToString(version));
  }

  lemma {:induction false} UpdatedVersionReads(db: string, rows: seq<Row>, version: int32)
    requires exists i :: 0 <= i < |rows| && rows[i].name == VersionKey
    ensures VersionOf(ReadSystemInfo(db, Some(SetVersionRows(rows, Int32ToString(version))))) == Success(version)
  {
    var text := Int32ToString(version);
    var updated := SetVersionRows(rows, text);
    var last := LastIndexOf(rows, VersionKey);
    AddRowsLastWins(map[DatabaseNameKey := db], updated, VersionKey, last);
    assert ReadSystemInfo(db, Some(updated))[VersionKey] == text;
    Int32RoundTrip(version);
  }

  lemma {:induction false} UpdateKeepsName(db: string, rows: seq<Row>, text: string)
    ensures DatabaseNameOf(ReadSystemInfo(db, Some(SetVersionRows(rows, text)))) ==
            DatabaseNameOf(ReadSystemInfo(db, Some(rows)))
  {
    var updated := SetVersionRows(rows, text);
    var start := map[DatabaseNameKey := db];
    if forall i :: 0 <= i < |rows| ==> rows[i].name != DatabaseNameKey {
      AddRowsUntouched(start, updated, DatabaseNameKey);
      AddRowsUntouched(start, rows, DatabaseNameKey);
    } else {
      var k := LastIndexOf(rows, DatabaseNameKey);
      AddRowsLastWins(start, updated, DatabaseNameKey, k);
      AddRowsLastWins(start, rows, DatabaseNameKey, k);
    }
  }

  /** The index of the last row with a given name. */
  function LastIndexOf(rows: seq<Row>, name: string): (k: nat)
    requires exists i :: 0 <= i < |rows| && rows[i].name == name
    ensures k < |rows| && rows[k].name == name
    ensures forall j :: k < j < |rows| ==> rows[j].name != name
  {
    if rows[|rows| - 1].name == name then |rows| - 1
    else
      var init := rows[..|rows| - 1];
      assert exists i :: 0 <= i < |init| && init[i].name == name by {
        var i :| 0 <= i < |rows| && rows[i].name == name;
        assert i < |init| && init[i].name == name;
      }
      LastIndexOf(rows[..|rows| - 1], name)
  }

  class DatabaseEngine {
    const engineType: ConcreteEngine
    /** `_options.Connections` / `_options.Schemas`. */
    const connections: seq<ConnectionSettings>
    /** `_connectionStringDict`. */
    var connectionStrings: map<string, string>
    var firstDefaultDatabaseName: NString

    constructor (engineType: ConcreteEngine, connections: seq<ConnectionSettings>)
      ensures this.engineType == engineType && this.connections == connections
      ensures connectionStrings == Table(connections)
      ensures firstDefaultDatabaseName == FirstName(None, connections)
    {
      this.engineType := engineType;
      this.connections := connections;
      connectionStrings := map[];
      firstDefaultDatabaseName := None;
      new;
      SetConnectionStrings();
    }

    /** Fills the dictionary from the configured connections, in order. */
    method SetConnectionStrings()
      modifies this
      ensures connectionStrings == Table(connections)
      ensures firstDefaultDatabaseName == FirstName(old(firstDefaultDatabaseName), connections)
    {
      connectionStrings := map[];
      for i := 0 to |connections|
        invariant connectionStrings == Table(connections[..i])
        invariant firstDefaultDatabaseName == FirstName(old(firstDefaultDatabaseName), connections[..i])
      {
        var c := connections[i];
        assert connections[..i + 1][..i] == connections[..i];
        if IsNullOrEmpty(firstDefaultDatabaseName) {
          firstDefaultDatabaseName := Some(c.databaseName);
        }
        if c.isMaster {
          connectionStrings := connectionStrings[MasterKey(c.databaseName) := c.connectionString];
          if ReadKey(c.databaseName) !in connectionStrings {
            connectionStrings := connectionStrings[ReadKey(c.databaseName) := c.connectionString];
          }
        } else {
          connectionStrings := connectionStrings[ReadKey(c.databaseName) := c.connectionString];
        }
      }
      assert connections[..|connections|] == connections;
    }

    /** `GetDatabaseNames()`: one name per configured connection, in order. */
    function DatabaseNames(): (r: seq<string>)
      ensures |r| == |connections|
      ensures forall i :: 0 <= i < |r| ==> r[i] == connections[i].databaseName
    {
      seq(|connections|, i requires 0 <= i < |connections| => connections[i].databaseName)
    }

    function GetConnectionString(db: string, isMaster: bool): Result<string, Exception>
      reads this
    {
      Lookup(connectionStrings, db, isMaster)
    }

    /** `GetSystemInfo(databaseName, transaction)`, with the table's presence
        and rows given as `table`. */
    method GetSystemInfo(db: string, table: Option<seq<Row>>) returns (info: SystemInfo)
      ensures fresh(info)
      ensures info.entries == ReadSystemInfo(db, table)
    {
      if table.None? {
        info := new SystemInfo();
        info.SetDatabaseName(db);
        info.SetVersion(0);
        return;
      }
      var rows := table.value;
      info := new SystemInfo.WithDatabaseName(db);
      var i := 0;
      while i < |rows|
        invariant 0 <= i <= |rows|
        invariant fresh(info)
        invariant info.entries == AddRows(map[DatabaseNameKey := db], rows[..i])
      {
        assert rows[..i + 1][..i] == rows[..i];
        info.Add(rows[i].name, rows[i].value);
        i := i + 1;
      }
      assert rows[..|rows|] == rows;
    }
  }
}
