/** The entity operations of `DefaultDatabase`: how reads add the soft-delete
    filter and pick a connection, how scalar reads, paging and counting
    interpret what comes back, and how writes check the affected-row counts
    the engine reports (optimistic concurrency on `Id` and `Version`). What
    the engine returns for a command is an input. */
module Crud {
  import opened Common
  import opened DatabaseErrors
  import opened Engines
  import opened EntityDefs
  import Transactions
  import SystemInfos

  /** A conjunct of a `WhereExpression`: `Deleted == false` on an entity,
      the optimistic-concurrency tests, or a caller's own expression. */
  datatype Conjunct =
    | NotDeleted(entity: string)
    | IdIs(id: int64)
    | VersionIs(version: int64)
    | Condition(text: string)

  /** `Limit(skip, take)`. */
  datatype Limit = Limit(skip: int64, take: int64)

  /** `SqlJoinType`. */
  datatype JoinType = LEFT | RIGHT | INNER | FULL | CROSS

  /** `WhereExpression<T>`: the conjuncts added so far and the row limit. */
  class WhereExpression {
    const entity: string
    var conjuncts: seq<Conjunct>
    var limit: Option<Limit>

    /** `Where<T>()`. */
    constructor (entity: string)
      ensures this.entity == entity && conjuncts == [] && limit == None
    {
      this.entity := entity;
      conjuncts := [];
      limit := None;
    }

    /** `And(...)` (and `Where(...)` on a fresh expression). */
    method And(c: Conjunct)
      modifies this
      ensures conjuncts == old(conjuncts) + [c] && limit == old(limit)
    {
      conjuncts := conjuncts + [c];
    }

    /** A chain `.And(c1).And(c2)...` of calls. */
    method AndAll(cs: seq<Conjunct>)
      modifies this
      ensures conjuncts == old(conjuncts) + cs && limit == old(limit)
    {
      conjuncts := conjuncts + cs;
    }

    /** `Limit(skip, take)`. */
    method SetLimit(l: Limit)
      modifies this
      ensures limit == Some(l) && conjuncts == old(conjuncts)
    {
      limit := Some(l);
    }
  }

  /** An entity instance: the columns every entity has. */
  class Entity {
    var id: int64
    var version: int64
    var deleted: bool

    constructor (id: int64, version: int64, deleted: bool)
      ensures this.id == id && this.version == version && this.deleted == deleted
    {
      this.id := id;
      this.version := version;
      this.deleted := deleted;
    }
  }

  // ---- where a command runs ----

  /** A database name as the engine's key concatenation sees it: C# turns
      `null + "_1"` into `"_1"`, so a null name acts as the empty one. */
  function KeyName(db: NString): (r: string)
    ensures db.Some? ==> r == db.value
    ensures db.None? ==> r == ""
  {
    if db.Some? then db.value else ""
  }

  /** The engine's choice of connection for a command on the definition's
      database: the transaction's when there is one; otherwise the master or
      a read connection, looked up under the name's `_1` or `_0` key (a null
      name looks up `"_1"` or `"_0"`). */
  function CommandChannel(conns: map<string, string>, tx: Option<Engines.DbTransaction>, db: NString, useMaster: bool): (r: Result<Channel, Exception>)
    ensures tx.Some? ==> r == Success(ViaTransaction(tx.value))
    ensures tx.None? ==> r == Route(conns, None, KeyName(db), useMaster)
    ensures tx.None? ==>
      (r.Success? <==> (if useMaster then MasterKey(KeyName(db)) else ReadKey(KeyName(db))) in conns)
    ensures tx.None? && db.None? ==>
      (r.Success? <==> (if useMaster then "_1" else "_0") in conns)
  {
    if tx.Some? then Success(ViaTransaction(tx.value))
    else
      assert MasterKey("") == "_1" && ReadKey("") == "_0";
      Route(conns, None, KeyName(db), useMaster)
  }

  // The fixed part of the detail each operation's exception carries; the
  // interpolated conditions and JSON payloads that follow it are not modelled.

  /** The detail of a select/from/where read or a count. */
  const SelectDetail: string := "select:, from:, where:"
  /** The detail of a join read. */
  const JoinDetail: string := "from:, where:"
  /** The detail of a failed single-entity command. */
  const ItemDetail: string := "Item:"
  /** The message of a single-entity write that is refused or finds no row. */
  const EntityDetail: string := "Entity:"
  /** The detail of a failed batch command, and the tail of its messages. */
  const ItemsDetail: string := "Items:"

  /** The `try`/`catch (Exception ex) when (!(ex is DatabaseException))`
      around a command: a failure to find a connection or to run the
      command reaches the caller as a `DatabaseException`, unchanged if it
      already was one and otherwise as `InnerError` naming the entity. */
  function Guarded<T>(def: EntityDef, channel: Result<Channel, Exception>, answer: Result<T, Exception>,
                      detail: string, operation: string): (r: Result<T, Exception>)
    ensures r.Success? <==> channel.Success? && answer.Success?
    ensures r.Success? ==> r.value == answer.value
    ensures r.Failure? ==> r.error.Database?
    ensures channel.Success? && answer.Failure? && answer.error.Database? ==> r == answer
    ensures channel.Success? && answer.Failure? && !answer.error.Database? ==>
      r.error.ex.error == InnerError && r.error.ex.inner == Some(answer.error) &&
      r.error.ex.entityName == Some(def.entityFullName) &&
      r.error.ex.message == Some(detail) && r.error.ex.operation == Some(operation)
    ensures channel.Failure? ==> r.error == Rethrow(channel.error, InnerError, Some(def.entityFullName), detail, operation)
  {
    if channel.Failure? then Failure(Rethrow(channel.error, InnerError, Some(def.entityFullName), detail, operation))
    else if answer.Failure? then Failure(Rethrow(answer.error, InnerError, Some(def.entityFullName), detail, operation))
    else answer
  }

  /** A read: on the master inside a transaction, on a read connection
      outside one. */
  function ReadOutcome<T>(def: EntityDef, conns: map<string, string>, tx: Option<Engines.DbTransaction>,
                          answer: Result<T, Exception>, detail: string): Result<T, Exception>
  {
    Guarded(def, CommandChannel(conns, tx, def.databaseName, tx.Some?), answer, detail, "RetrieveAsync")
  }

  function TransactionOf(tx: Transactions.TransactionContext?): Option<Engines.DbTransaction>
    reads tx
  {
    if tx == null then None else Some(tx.transaction)
  }

  /** Outside a transaction a successful read went to a read connection
      (the replica when one is configured), inside one through the
      transaction; a database without any entry fails as `InnerError`. */
  lemma ReadRouting<T>(def: EntityDef, conns: map<string, string>, db: string, tx: Engines.DbTransaction, rows: T, detail: string)
    requires def.databaseName == Some(db)
    ensures ReadOutcome(def, conns, None, Success(rows), detail).Success? <==> ReadKey(db) in conns
    ensures ReadOutcome(def, conns, Some(tx), Success(rows), detail) == Success(rows)
    ensures ReadKey(db) !in conns ==>
      var r := ReadOutcome(def, conns, None, Success(rows), detail);
      r.Failure? && KindOf(r.error) == Some(InnerError) && r.error.ex.inner.Some? &&
      r.error.ex.inner.value.Other? && r.error.ex.inner.value.typeName == "KeyNotFoundException"
  {
  }

  // ---- reads ----

  /** `where ?? Where<T>()`, then the soft-delete filter for each of
      `entities`: the caller's expression object is changed in place. */
  method Adjust(where: WhereExpression?, entity: string, entities: seq<string>) returns (w: WhereExpression)
    modifies where
    ensures where != null ==> w == where && w.limit == old(where.limit)
    ensures where == null ==> fresh(w) && w.entity == entity && w.limit.None?
    ensures w.conjuncts == (if where == null then [] else old(where.conjuncts)) + NotDeletedAll(entities)
  {
    if where == null {
      w := new WhereExpression(entity);
    } else {
      w := where;
    }
    w.AndAll(NotDeletedAll(entities));
  }

  /** `Deleted == false` for each entity, in order. */
  function NotDeletedAll(entities: seq<string>): (r: seq<Conjunct>)
    ensures |r| == |entities|
    ensures forall i :: 0 <= i < |entities| ==> r[i] == NotDeleted(entities[i])
  {
    if entities == [] then [] else NotDeletedAll(entities[..|entities| - 1]) + [NotDeleted(entities[|entities| - 1])]
  }

  /** `RetrieveAsync<T>(select, from, where, transContext)`: the soft-delete
      filter on `T` is added to the caller's expression, and what the engine
      answers comes back through the read's guard. */
  method Retrieve<T>(def: EntityDef, where: WhereExpression?, tx: Transactions.TransactionContext?,
                     conns: map<string, string>, answer: Result<seq<T>, Exception>)
    returns (w: WhereExpression, r: Result<seq<T>, Exception>)
    modifies where
    ensures where != null ==> w == where && w.limit == old(where.limit)
    ensures where == null ==> fresh(w) && w.limit.None?
    ensures w.conjuncts == (if where == null then [] else old(where.conjuncts)) + [NotDeleted(def.entityFullName)]
    ensures r == ReadOutcome(def, conns, TransactionOf(tx), answer, SelectDetail)
  {
    w := Adjust(where, def.entityFullName, [def.entityFullName]);
    r := ReadOutcome(def, conns, TransactionOf(tx), answer, SelectDetail);
  }

  /** `RetrieveAsync<TSelect, TFrom, TWhere>`: the filter is added for the
      where, select and from entities, in that order. */
  method RetrieveSelectFromWhere<T>(def: EntityDef, whereEntity: string, fromEntity: string, where: WhereExpression?,
                                    tx: Transactions.TransactionContext?, conns: map<string, string>, answer: Result<seq<T>, Exception>)
    returns (w: WhereExpression, r: Result<seq<T>, Exception>)
    modifies where
    ensures where != null ==> w == where && w.limit == old(where.limit)
    ensures where == null ==> fresh(w) && w.limit.None?
    ensures w.conjuncts == (if where == null then [] else old(where.conjuncts)) +
      [NotDeleted(whereEntity), NotDeleted(def.entityFullName), NotDeleted(fromEntity)]
    ensures r == ReadOutcome(def, conns, TransactionOf(tx), answer, SelectDetail)
  {
    w := Adjust(where, whereEntity, [whereEntity, def.entityFullName, fromEntity]);
    r := ReadOutcome(def, conns, TransactionOf(tx), answer, SelectDetail);
  }

  /** `ScalarAsync`: no row is `null`, one row is that row, more than one
      is `FoundTooMuch`. */
  function ScalarOf<T>(rows: seq<T>, entity: string): (r: Result<Option<T>, Exception>)
    ensures r == Success(None) <==> |rows| == 0
    ensures r.Success? && r.value.Some? <==> |rows| == 1
    ensures |rows| == 1 ==> r.value.value == rows[0]
    ensures r.Failure? <==> |rows| > 1
    ensures r.Failure? ==> KindOf(r.error) == Some(FoundTooMuch) && r.error.ex.entityName == Some(entity)
  {
    if |rows| == 0 then Success(None)
    else if |rows| > 1 then Failure(Raise(FoundTooMuch, Some(entity), Some("Scalar retrieve return more than one result. Select:, From:, Where:"), "ScalarAsync"))
    else Success(Some(rows[0]))
  }

  /** Whatever comes back, a scalar read never yields a row when the
      engine's answer is not exactly one row. */
  lemma ScalarOnlyOfSingleRow<T>(def: EntityDef, conns: map<string, string>, tx: Option<Engines.DbTransaction>,
                                 answer: Result<seq<T>, Exception>, detail: string)
    ensures var read := ReadOutcome(def, conns, tx, answer, detail);
      read.Success? && ScalarOf(read.value, def.entityFullName).Success? &&
      ScalarOf(read.value, def.entityFullName).value.Some? ==>
        answer.Success? && |answer.value| == 1
  {
  }

  method Scalar<T>(def: EntityDef, where: WhereExpression?, tx: Transactions.TransactionContext?,
                   conns: map<string, string>, answer: Result<seq<T>, Exception>)
    returns (w: WhereExpression, r: Result<Option<T>, Exception>)
    modifies where
    ensures where != null ==> w == where
    ensures w.conjuncts == (if where == null then [] else old(where.conjuncts)) + [NotDeleted(def.entityFullName)]
    ensures var read := ReadOutcome(def, conns, TransactionOf(tx), answer, SelectDetail);
      r == if read.Failure? then Failure(read.error) else ScalarOf(read.value, def.entityFullName)
  {
    var rows;
    w, rows := Retrieve(def, where, tx, conns, answer);
    if rows.Failure? {
      return w, Failure(rows.error);
    }
    r := ScalarOf(rows.value, def.entityFullName);
  }

  /** `(pageNumber - 1) * perPageCount` in unchecked 64-bit arithmetic. */
  function PageLimit(pageNumber: int64, perPageCount: int64): (r: Limit)
    ensures r.take == perPageCount
    ensures MinInt64 <= (pageNumber as int - 1) * perPageCount as int <= MaxInt64 && pageNumber > MinInt64 ==>
      r.skip as int == (pageNumber as int - 1) * perPageCount as int
  {
    Limit(Wrap64(Wrap64(pageNumber as int - 1) as int * perPageCount as int), perPageCount)
  }

  /** Consecutive pages follow each other: page `p + 1` starts where page
      `p` ends, and page 1 starts at the first row. */
  lemma PagesAreConsecutive(p: int64, n: int64)
    requires 1 <= p < MaxInt64 && 0 <= n
    requires p as int * n as int <= MaxInt64
    ensures PageLimit(1, n).skip == 0
    ensures PageLimit(p + 1, n).skip as int == PageLimit(p, n).skip as int + n as int
  {
    assert 0 <= (p as int - 1) * n as int <= p as int * n as int by {
      assert (p as int - 1) * n as int == p as int * n as int - n as int;
    }
  }

  /** `PageAsync<T>(select, from, where, pageNumber, perPageCount, ...)`:
      the filter is added here and again by the retrieve it delegates to. */
  method Page<T>(def: EntityDef, where: WhereExpression?, pageNumber: int64, perPageCount: int64,
                 tx: Transactions.TransactionContext?, conns: map<string, string>, answer: Result<seq<T>, Exception>)
    returns (w: WhereExpression, r: Result<seq<T>, Exception>)
    modifies where
    ensures where != null ==> w == where
    ensures where == null ==> fresh(w)
    ensures w.conjuncts == (if where == null then [] else old(where.conjuncts)) +
      [NotDeleted(def.entityFullName), NotDeleted(def.entityFullName)]
    ensures w.limit == Some(PageLimit(pageNumber, perPageCount))
    ensures r == ReadOutcome(def, conns, TransactionOf(tx), answer, SelectDetail)
  {
    w := Adjust(where, def.entityFullName, [def.entityFullName]);
    w.SetLimit(PageLimit(pageNumber, perPageCount));
    var w2;
    w2, r := Retrieve(def, w, tx, conns, answer);
  }

  /** `PageAsync<T>(whereExpr, pageNumber, perPageCount, ...)`: the
      expression is never added to the condition, so the page is taken
      from all rows that are not deleted. */
  method PageByExpression<T>(def: EntityDef, whereExpr: string, pageNumber: int64, perPageCount: int64,
                             tx: Transactions.TransactionContext?, conns: map<string, string>, answer: Result<seq<T>, Exception>)
    returns (w: WhereExpression, r: Result<seq<T>, Exception>)
    ensures fresh(w)
    ensures w.conjuncts == [NotDeleted(def.entityFullName), NotDeleted(def.entityFullName)]
    ensures Condition(whereExpr) !in w.conjuncts
    ensures w.limit == Some(PageLimit(pageNumber, perPageCount))
    ensures r == ReadOutcome(def, conns, TransactionOf(tx), answer, SelectDetail)
  {
    var created := new WhereExpression(def.entityFullName);
    w, r := Page(def, created, pageNumber, perPageCount, tx, conns, answer);
  }

  /** `Convert.ToInt32(countObj)`: a count outside the 32-bit range is an
      `OverflowException`. */
  function CountOf(count: int): (r: Result<int32, Exception>)
    ensures r.Success? <==> MinInt32 <= count <= MaxInt32
    ensures r.Success? ==> r.value as int == count
    ensures r.Failure? ==> r.error == Other("OverflowException", "Value was either too large or too small for an Int32.")
  {
    if MinInt32 <= count <= MaxInt32 then Success(count as int32)
    else Failure(Other("OverflowException", "Value was either too large or too small for an Int32."))
  }

  /** `CountAsync`: the scalar the engine returns, converted inside the
      guard, so an overflowing count is reported as `InnerError`. */
  function CountOutcome(def: EntityDef, conns: map<string, string>, tx: Option<Engines.DbTransaction>, answer: Result<int, Exception>): (r: Result<int64, Exception>)
    ensures r.Success? <==> CommandChannel(conns, tx, def.databaseName, tx.Some?).Success? &&
                            answer.Success? && MinInt32 <= answer.value <= MaxInt32
    ensures r.Success? ==> r.value as int == answer.value
    ensures r.Failure? ==> r.error.Database?
    ensures (CommandChannel(conns, tx, def.databaseName, tx.Some?).Success? && answer.Success? &&
             answer.value > MaxInt32) ==> KindOf(r.error) == Some(InnerError)
  {
    var converted := if answer.Failure? then Failure(answer.error) else CountOf(answer.value);
    var g := Guarded(def, CommandChannel(conns, tx, def.databaseName, tx.Some?), converted, SelectDetail, "CountAsync");
    if g.Failure? then Failure(g.error) else Success(g.value as int64)
  }

  /** `CountAsync<T>(whereExpr, ...)`: unlike the paged read, the
      expression is applied. */
  method CountByExpression(def: EntityDef, whereExpr: string, tx: Transactions.TransactionContext?,
                           conns: map<string, string>, answer: Result<int, Exception>)
    returns (w: WhereExpression, r: Result<int64, Exception>)
    ensures fresh(w)
    ensures w.conjuncts == [Condition(whereExpr), NotDeleted(def.entityFullName)]
    ensures r == CountOutcome(def, conns, TransactionOf(tx), answer)
  {
    var created := new WhereExpression(def.entityFullName);
    created.And(Condition(whereExpr));
    assert created.conjuncts == [Condition(whereExpr)];
    assert NotDeletedAll([def.entityFullName]) == [NotDeleted(def.entityFullName)];
    w := Adjust(created, def.entityFullName, [def.entityFullName]);
    r := CountOutcome(def, conns, TransactionOf(tx), answer);
  }

  // ---- joins ----

  /** The soft-delete filters of a two-table read, by join type. */
  function JoinFilters(join: JoinType, source: string, target: string): seq<string>
  {
    match join
    case LEFT => [source]
    case RIGHT => [target]
    case INNER => [source, target]
    case FULL => []
    case CROSS => [source, target]
  }

  /** The soft-delete filters of a three-table read: a right join filters
      only the second target. */
  function JoinFilters3(join: JoinType, source: string, target1: string, target2: string): seq<string>
  {
    match join
    case LEFT => [source]
    case RIGHT => [target2]
    case INNER => [source, target1, target2]
    case FULL => []
    case CROSS => [source, target1, target2]
  }

  /** Which tables a join read filters: the preserved side of an outer
      join, both sides of an inner or cross join, nothing for a full join. */
  lemma JoinFiltering(join: JoinType, s: string, t: string, t1: string, t2: string)
    requires s != t && s != t1 && s != t2 && t1 != t2
    ensures s in JoinFilters(join, s, t) <==> join == LEFT || join == INNER || join == CROSS
    ensures t in JoinFilters(join, s, t) <==> join == RIGHT || join == INNER || join == CROSS
    ensures s in JoinFilters3(join, s, t1, t2) <==> join == LEFT || join == INNER || join == CROSS
    ensures t1 in JoinFilters3(join, s, t1, t2) <==> join == INNER || join == CROSS
    ensures t2 in JoinFilters3(join, s, t1, t2) <==> join == RIGHT || join == INNER || join == CROSS
    ensures join == FULL ==> JoinFilters(join, s, t) == [] && JoinFilters3(join, s, t1, t2) == []
  {
  }

  /** `RetrieveAsync<TSource, TTarget>` and `RetrieveAsync<TSource,
      TTarget1, TTarget2>` (one or two targets). */
  method RetrieveJoin<T>(def: EntityDef, join: JoinType, targets: seq<string>, where: WhereExpression?,
                         tx: Transactions.TransactionContext?, conns: map<string, string>, answer: Result<seq<T>, Exception>)
    returns (w: WhereExpression, r: Result<seq<T>, Exception>)
    requires |targets| == 1 || |targets| == 2
    modifies where
    ensures where != null ==> w == where && w.limit == old(where.limit)
    ensures where == null ==> fresh(w) && w.limit.None?
    ensures w.conjuncts == (if where == null then [] else old(where.conjuncts)) + NotDeletedAll(
      if |targets| == 1 then JoinFilters(join, def.entityFullName, targets[0])
      else JoinFilters3(join, def.entityFullName, targets[0], targets[1]))
    ensures r == ReadOutcome(def, conns, TransactionOf(tx), answer, JoinDetail)
  {
    var filtered := if |targets| == 1 then JoinFilters(join, def.entityFullName, targets[0])
                    else JoinFilters3(join, def.entityFullName, targets[0], targets[1]);
    w := Adjust(where, def.entityFullName, filtered);
    r := ReadOutcome(def, conns, TransactionOf(tx), answer, JoinDetail);
  }

  /** `PageAsync<TSource, TTarget...>`: only the limit is set here; the
      filters are those of the join read. */
  method PageJoin<T>(def: EntityDef, join: JoinType, targets: seq<string>, where: WhereExpression?,
                     pageNumber: int64, perPageCount: int64,
                     tx: Transactions.TransactionContext?, conns: map<string, string>, answer: Result<seq<T>, Exception>)
    returns (w: WhereExpression, r: Result<seq<T>, Exception>)
    requires |targets| == 1 || |targets| == 2
    modifies where
    ensures where != null ==> w == where
    ensures where == null ==> fresh(w)
    ensures w.limit == Some(PageLimit(pageNumber, perPageCount))
    ensures w.conjuncts == (if where == null then [] else old(where.conjuncts)) + NotDeletedAll(
      if |targets| == 1 then JoinFilters(join, def.entityFullName, targets[0])
      else JoinFilters3(join, def.entityFullName, targets[0], targets[1]))
    ensures r == ReadOutcome(def, conns, TransactionOf(tx), answer, JoinDetail)
  {
    w := Adjust(where, def.entityFullName, []);
    w.SetLimit(PageLimit(pageNumber, perPageCount));
    var w2;
    w2, r := RetrieveJoin(def, join, targets, w, tx, conns, answer);
  }

  // ---- single-entity writes ----

  /** The checks before any write: `ThrowIf.NotValid`, then the entity's
      `DatabaseWriteable` flag. */
  function WriteGate(def: EntityDef, valid: bool, operation: string): (r: Option<Exception>)
    ensures r.None? <==> valid && def.databaseWriteable
    ensures !valid ==> r == Some(Other("ValidateErrorException", operation))
    ensures valid && !def.databaseWriteable ==> KindOf(r.value) == Some(NotWriteable)
  {
    if !valid then Some(Other("ValidateErrorException", operation))
    else if !def.databaseWriteable then Some(Raise(NotWriteable, Some(def.entityFullName), Some(EntityDetail), operation))
    else None
  }

  /** The condition of an update or a delete: the row with this `Id` and
      this `Version`, not yet deleted. */
  function ConcurrencyCondition(entity: string, id: int64, version: int64): seq<Conjunct>
  {
    [IdIs(id), NotDeleted(entity), VersionIs(version)]
  }

  /** The affected-row count of an update or a delete: exactly one row is
      success, none means the row was changed, deleted or never existed
      (`NotFound`), more means the table is inconsistent (`FoundTooMuch`). */
  function AffectedOneRow(rows: int64, entity: string, operation: string): (r: Option<Exception>)
    ensures r.None? <==> rows == 1
    ensures rows == 0 ==> KindOf(r.value) == Some(NotFound)
    ensures rows != 0 && rows != 1 ==> KindOf(r.value) == Some(FoundTooMuch)
  {
    if rows == 1 then None
    else if rows == 0 then Some(Raise(NotFound, Some(entity), Some(EntityDetail), operation))
    else Some(Raise(FoundTooMuch, Some(entity), Some("Multiple Rows Affected instead of one. Something go wrong. " + EntityDetail), operation))
  }

  /** A guarded non-query on the master (or the transaction), then the
      affected-row check, whose own exception passes the guard unchanged. */
  function WriteOutcome(def: EntityDef, conns: map<string, string>, tx: Option<Engines.DbTransaction>,
                        answer: Result<int64, Exception>, operation: string): (r: Option<Exception>)
    ensures r.None? <==> CommandChannel(conns, tx, def.databaseName, true).Success? && answer == Success(1)
    ensures r.Some? ==> r.value.Database?
    ensures CommandChannel(conns, tx, def.databaseName, true).Success? && answer.Success? ==>
      r == AffectedOneRow(answer.value, def.entityFullName, operation)
  {
    var g := Guarded(def, CommandChannel(conns, tx, def.databaseName, true), answer, ItemDetail, operation);
    if g.Failure? then Some(g.error) else AffectedOneRow(g.value, def.entityFullName, operation)
  }

  /** `AddAsync(item, transContext)`: the insert and the select-back run on
      the master even outside a transaction; the row read back is mapped
      onto the item. */
  method Add(def: EntityDef, item: Entity, valid: bool, tx: Transactions.TransactionContext?,
             conns: map<string, string>, readBack: Result<(int64, int64), Exception>)
    returns (thrown: Option<Exception>)
    modifies item
    ensures var gate := WriteGate(def, valid, "AddAsync");
      var g := Guarded(def, CommandChannel(conns, TransactionOf(tx), def.databaseName, true), readBack, ItemDetail, "AddAsync");
      && (gate.Some? ==> thrown == gate && unchanged(item))
      && (gate.None? && g.Failure? ==> thrown == Some(g.error) && unchanged(item))
      && (gate.None? && g.Success? ==> thrown.None? && item.id == g.value.0 && item.version == g.value.1 &&
                                       item.deleted == old(item.deleted))
  {
    thrown := WriteGate(def, valid, "AddAsync");
    if thrown.Some? {
      return;
    }
    var g := Guarded(def, CommandChannel(conns, TransactionOf(tx), def.databaseName, true), readBack, ItemDetail, "AddAsync");
    if g.Failure? {
      return Some(g.error);
    }
    item.id := g.value.0;
    item.version := g.value.1;
  }

  /** `UpdateAsync(item, transContext)`: on success the item's version is
      incremented (in unchecked 64-bit arithmetic), otherwise the item is
      left as it was. */
  method Update(def: EntityDef, item: Entity, valid: bool, tx: Transactions.TransactionContext?,
                conns: map<string, string>, affected: Result<int64, Exception>)
    returns (condition: seq<Conjunct>, thrown: Option<Exception>)
    modifies item
    ensures condition == ConcurrencyCondition(def.entityFullName, old(item.id), old(item.version))
    ensures var gate := WriteGate(def, valid, "UpdateAsync");
      thrown == if gate.Some? then gate else WriteOutcome(def, conns, TransactionOf(tx), affected, "UpdateAsync")
    ensures thrown.None? ==> item.version == Wrap64(old(item.version) as int + 1)
    ensures thrown.Some? ==> item.version == old(item.version)
    ensures item.id == old(item.id) && item.deleted == old(item.deleted)
  {
    condition := ConcurrencyCondition(def.entityFullName, item.id, item.version);
    thrown := WriteGate(def, valid, "UpdateAsync");
    if thrown.Some? {
      return;
    }
    thrown := WriteOutcome(def, conns, TransactionOf(tx), affected, "UpdateAsync");
    if thrown.None? {
      item.version := Wrap64(item.version as int + 1);
    }
  }

  /** `DeleteAsync(item, transContext)`: the soft delete of the row with the
      item's id and version; the item itself is not changed. */
  method Delete(def: EntityDef, item: Entity, valid: bool, tx: Transactions.TransactionContext?,
                conns: map<string, string>, affected: Result<int64, Exception>)
    returns (condition: seq<Conjunct>, thrown: Option<Exception>)
    ensures condition == ConcurrencyCondition(def.entityFullName, item.id, item.version)
    ensures var gate := WriteGate(def, valid, "DeleteAsync");
      thrown == if gate.Some? then gate else WriteOutcome(def, conns, TransactionOf(tx), affected, "DeleteAsync")
  {
    condition := ConcurrencyCondition(def.entityFullName, item.id, item.version);
    thrown := WriteGate(def, valid, "DeleteAsync");
    if thrown.Some? {
      return;
    }
    thrown := WriteOutcome(def, conns, TransactionOf(tx), affected, "DeleteAsync");
  }

  /** Optimistic concurrency: a stale version makes the condition match no
      row, which is reported as `NotFound` and never as success. */
  lemma StaleWriteIsNotFound(def: EntityDef, conns: map<string, string>, tx: Engines.DbTransaction, operation: string)
    ensures WriteOutcome(def, conns, Some(tx), Success(0), operation).Some?
    ensures KindOf(WriteOutcome(def, conns, Some(tx), Success(0), operation).value) == Some(NotFound)
    ensures WriteOutcome(def, conns, Some(tx), Success(2), operation).Some?
    ensures KindOf(WriteOutcome(def, conns, Some(tx), Success(2), operation).value) == Some(FoundTooMuch)
  {
  }

  // ---- batch writes ----

  /** The two reader-checked batch writes. */
  datatype BatchKind = BatchUpdate | BatchDelete

  /** The caller member name the exceptions of a batch write carry. */
  function BatchOperation(kind: BatchKind): string {
    match kind
    case BatchUpdate => "BatchUpdateAsync"
    case BatchDelete => "BatchDeleteAsync"
  }

  /** The word the `NotFound` messages of a batch write start with. */
  function BatchVerb(kind: BatchKind): string {
    match kind
    case BatchUpdate => "BatchUpdate"
    case BatchDelete => "BatchDelete"
  }

  /** The ids the reader returns, one per row, in order. */
  method ReadIds(reader: seq<int64>) returns (newIds: seq<int64>)
    ensures newIds == reader
  {
    newIds := [];
    var i := 0;
    while i < |reader|
      invariant 0 <= i <= |reader|
      invariant newIds == reader[..i]
    {
      newIds := newIds + [reader[i]];
      i := i + 1;
    }
  }

  /** `BatchAddAsync(items, transContext)`: no items is an empty result
      before the entity is even looked at; otherwise one id must come back
      per item (`NotMatch`). */
  method BatchAdd(def: EntityDef, itemCount: nat, valid: bool, reader: Result<seq<int64>, Exception>)
    returns (r: Result<seq<int64>, Exception>)
    ensures !valid ==> r == Failure(Other("ValidateErrorException", "BatchAddAsync"))
    ensures valid && itemCount == 0 ==> r == Success([])
    ensures valid && itemCount > 0 && !def.databaseWriteable ==> r.Failure? && KindOf(r.error) == Some(NotWriteable)
    ensures r.Success? && itemCount > 0 ==> reader.Success? && r.value == reader.value && |r.value| == itemCount
    ensures valid && itemCount > 0 && def.databaseWriteable && reader.Success? && |reader.value| == itemCount ==>
      r == Success(reader.value)
    ensures valid && itemCount > 0 && def.databaseWriteable && reader.Success? && |reader.value| != itemCount ==>
      r.Failure? && KindOf(r.error) == Some(NotMatch)
    ensures valid && itemCount > 0 && def.databaseWriteable && reader.Failure? ==>
      r.Failure? && r.error == Rethrow(reader.error, InnerError, Some(def.entityFullName), ItemsDetail, "BatchAddAsync")
  {
    if !valid {
      return Failure(Other("ValidateErrorException", "BatchAddAsync"));
    }
    if itemCount == 0 {
      return Success([]);
    }
    if !def.databaseWriteable {
      return Failure(Raise(NotWriteable, Some(def.entityFullName), Some(ItemsDetail), "BatchAddAsync"));
    }
    if reader.Failure? {
      return Failure(Rethrow(reader.error, InnerError, Some(def.entityFullName), ItemsDetail, "BatchAddAsync"));
    }
    var newIds := ReadIds(reader.value);
    if |newIds| != itemCount {
      return Failure(Raise(NotMatch, Some(def.entityFullName), Some(ItemsDetail), "BatchAddAsync"));
    }
    return Success(newIds);
  }

  /** The text of the per-row `NotFound` message: the interpolation hole
      holds a string literal, so the row number never appears. */
  function NotFoundRowMessage(verb: string, count: nat): string
  {
    verb + " wrong, not found the  + count + th data item. " + ItemsDetail
  }

  /** The message as evidently intended: with the row number. */
  function NotFoundRowMessageFixed(verb: string, count: nat): string
  {
    verb + " wrong, not found the " + SystemInfos.NatToString(count) + "th data item. " + ItemsDetail
  }

  /** As written, the message is the same whatever row failed. */
  lemma NotFoundRowMessageLosesTheRow(verb: string)
    ensures NotFoundRowMessage(verb, 0) == NotFoundRowMessage(verb, 7)
  {
  }

  /** The intended message tells the rows apart: different rows give
      different messages. */
  lemma {:induction false} NotFoundRowMessageFixedNamesTheRow(verb: string, a: nat, b: nat)
    requires a != b
    ensures NotFoundRowMessageFixed(verb, a) != NotFoundRowMessageFixed(verb, b)
  {
    var tail := "th data item. " + ItemsDetail;
    var head := verb + " wrong, not found the ";
    var sa := SystemInfos.NatToString(a);
    var sb := SystemInfos.NatToString(b);
    if NotFoundRowMessageFixed(verb, a) == NotFoundRowMessageFixed(verb, b) {
      var ma := NotFoundRowMessageFixed(verb, a);
      assert ma == head + sa + tail;
      assert NotFoundRowMessageFixed(verb, b) == head + sb + tail;
      assert |sa| == |sb|;
      assert sa == ma[|head|..|head| + |sa|];
      assert sb == ma[|head|..|head| + |sb|];
      SystemInfos.DigitsOfNat(a);
      SystemInfos.DigitsOfNat(b);
      assert false;
    }
  }

  /** The reader loop of `BatchUpdateAsync` and `BatchDeleteAsync`: every
      row must report exactly one affected row, and there must be one row
      per item; the first row that does not is reported by its position. */
  method CheckBatchRows(def: EntityDef, kind: BatchKind, affected: seq<int>, itemCount: nat)
    returns (thrown: Option<Exception>)
    ensures thrown.None? <==> (forall i :: 0 <= i < |affected| ==> affected[i] == 1) && |affected| == itemCount
    ensures thrown.Some? ==>
      KindOf(thrown.value) == Some(NotFound) &&
      thrown.value.ex.entityName == Some(def.entityFullName) && thrown.value.ex.operation == Some(BatchOperation(kind))
    ensures thrown.Some? && (exists i :: 0 <= i < |affected| && affected[i] != 1) ==>
      var k := FirstNotOne(affected);
      thrown.value.ex.message == Some(NotFoundRowMessageFixed(BatchVerb(kind), k))
    ensures thrown.Some? && (forall i :: 0 <= i < |affected| ==> affected[i] == 1) ==>
      thrown.value.ex.message == Some(BatchVerb(kind) + " wrong number return. Some data item not found. " + ItemsDetail)
  {
    var operation := BatchOperation(kind);
    var count := 0;
    while count < |affected|
      invariant 0 <= count <= |affected|
      invariant forall i :: 0 <= i < count ==> affected[i] == 1
    {
      if affected[count] != 1 {
        FirstNotOneIs(affected, count);
        return Some(Database(WithError(NotFound, Some(def.entityFullName), Some(NotFoundRowMessageFixed(BatchVerb(kind), count)), None, Some(operation))));
      }
      count := count + 1;
    }
    if count != itemCount {
      return Some(Raise(NotFound, Some(def.entityFullName), Some(BatchVerb(kind) + " wrong number return. Some data item not found. " + ItemsDetail), operation));
    }
    return None;
  }

  /** The position of the first row that does not report one affected row. */
  function FirstNotOne(affected: seq<int>): nat
  {
    if affected == [] || affected[0] != 1 then 0 else 1 + FirstNotOne(affected[1..])
  }

  lemma {:induction false} FirstNotOneIs(affected: seq<int>, k: nat)
    requires k < |affected| && affected[k] != 1
    requires forall i :: 0 <= i < k ==> affected[i] == 1
    ensures FirstNotOne(affected) == k
  {
    if k > 0 {
      FirstNotOneIs(affected[1..], k - 1);
    }
  }

  /** `BatchUpdateAsync` and `BatchDeleteAsync(items, transContext)`. */
  method BatchChange(def: EntityDef, kind: BatchKind, itemCount: nat, valid: bool,
                     reader: Result<seq<int>, Exception>)
    returns (thrown: Option<Exception>)
    ensures !valid ==> thrown == Some(Other("ValidateErrorException", BatchOperation(kind)))
    ensures valid && itemCount == 0 ==> thrown.None?
    ensures valid && itemCount > 0 && !def.databaseWriteable ==> thrown.Some? && KindOf(thrown.value) == Some(NotWriteable)
    ensures thrown.None? && itemCount > 0 ==>
      reader.Success? && |reader.value| == itemCount && forall i :: 0 <= i < |reader.value| ==> reader.value[i] == 1
    ensures valid && itemCount > 0 && def.databaseWriteable && reader.Success? ==>
      (thrown.Some? ==> KindOf(thrown.value) == Some(NotFound))
    ensures valid && itemCount > 0 && def.databaseWriteable && reader.Success? && |reader.value| == itemCount ==>
      ((forall i :: 0 <= i < |reader.value| ==> reader.value[i] == 1) ==> thrown.None?)
    ensures valid && itemCount > 0 && def.databaseWriteable && reader.Failure? ==>
      thrown == Some(Rethrow(reader.error, InnerError, Some(def.entityFullName), ItemsDetail, BatchOperation(kind)))
  {
    if !valid {
      return Some(Other("ValidateErrorException", BatchOperation(kind)));
    }
    if itemCount == 0 {
      return None;
    }
    if !def.databaseWriteable {
      return Some(Raise(NotWriteable, Some(def.entityFullName), Some(ItemsDetail), BatchOperation(kind)));
    }
    if reader.Failure? {
      return Some(Rethrow(reader.error, InnerError, Some(def.entityFullName), ItemsDetail, BatchOperation(kind)));
    }
    thrown := CheckBatchRows(def, kind, reader.value, itemCount);
  }

  // ---- transactions per entity ----

  /** `BeginTransactionAsync<T>()`: only a table model has a database to
      begin a transaction on. */
  method BeginTransactionFor(engine: DatabaseEngine, def: EntityDef) returns (r: Result<Transactions.TransactionContext, Exception>)
    ensures !def.isTableModel ==>
      r == Failure(Database(WithError(NotATableModel, Some(def.entityFullName), None, None, Some("BeginTransactionAsync"))))
    ensures def.isTableModel ==>
      (r.Success? <==> MasterKey(KeyName(def.databaseName)) in engine.connectionStrings)
    ensures def.isTableModel && r.Failure? ==> r.error == Engines.BeginTransaction(engine.connectionStrings, KeyName(def.databaseName)).error
    ensures r.Success? ==> fresh(r.value) && r.value.status == Transactions.InTransaction
  {
    if !def.isTableModel {
      return Failure(Raise(NotATableModel, Some(def.entityFullName), None, "BeginTransactionAsync"));
    }
    r := Transactions.BeginTransaction(engine, KeyName(def.databaseName));
  }
}
