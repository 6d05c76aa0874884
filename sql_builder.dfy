/** The statement templates and dialect fragments of `SQLBuilder`
    (SQLBuilderHelper): which columns an insert, a select-back, an update and
    a soft delete mention, and the engine-specific texts. */
module SqlBuilder {
  import opened Common
  import opened DatabaseErrors
  import opened Engines
  import opened EntityDefs

  /** `{x}` in an interpolated string: a null value prints as nothing. */
  function Text(s: NString): string
  {
    if s.Some? then s.value else ""
  }

  /** `definition.GetProperty(name)`; the dereference of a missing property
      is a `NullReferenceException`. */
  function GetProperty(props: seq<PropertyDef>, name: string): (r: Result<PropertyDef, Exception>)
    ensures r.Success? <==> HasProperty(props, name)
    ensures r.Success? ==> r.value in props && r.value.propertyName == name
    ensures r.Failure? ==> r.error == Other("NullReferenceException", name)
  {
    if props == [] then Failure(Other("NullReferenceException", name))
    else if props[0].propertyName == name then Success(props[0])
    else
      var r := GetProperty(props[1..], name);
      assert HasProperty(props[1..], name) ==> HasProperty(props, name) by {
        if HasProperty(props[1..], name) {
          var i :| 0 <= i < |props[1..]| && props[1..][i].propertyName == name;
          assert props[i + 1].propertyName == name;
        }
      }
      assert HasProperty(props, name) ==> HasProperty(props[1..], name) by {
        if HasProperty(props, name) {
          var i :| 0 <= i < |props| && props[i].propertyName == name;
          assert i > 0 && props[1..][i - 1].propertyName == name;
        }
      }
      r
  }

  // ---- which properties each template mentions ----

  /** Read back after an insert: every table property. */
  predicate Selected(p: PropertyDef) { p.isTableProperty }

  /** Inserted: table properties except the auto-increment key and `LastTime`. */
  predicate Inserted(p: PropertyDef) { p.isTableProperty && !p.isAutoIncrementPrimaryKey && p.propertyName != "LastTime" }

  /** Updated: inserted properties except `Deleted`. */
  predicate Updated(p: PropertyDef) { Inserted(p) && p.propertyName != "Deleted" }

  function Filter(props: seq<PropertyDef>, keep: PropertyDef -> bool): seq<PropertyDef>
  {
    if props == [] then []
    else Filter(props[..|props| - 1], keep) + (if keep(props[|props| - 1]) then [props[|props| - 1]] else [])
  }

  /** `{0},` items. */
  function Columns(ps: seq<PropertyDef>): seq<string>
  {
    if ps == [] then [] else Columns(ps[..|ps| - 1]) + [ps[|ps| - 1].reservedName]
  }

  /** ` {0},` items. */
  function Values(ps: seq<PropertyDef>): seq<string>
  {
    if ps == [] then [] else Values(ps[..|ps| - 1]) + [" " + ps[|ps| - 1].parameterizedName]
  }

  /** ` {0}={1},` items. */
  function Assignments(ps: seq<PropertyDef>): seq<string>
  {
    if ps == [] then [] else Assignments(ps[..|ps| - 1]) + [" " + ps[|ps| - 1].reservedName + "=" + ps[|ps| - 1].parameterizedName]
  }

  /** A filter keeps exactly the properties its predicate accepts. */
  lemma {:induction false} FilterMembers(props: seq<PropertyDef>, keep: PropertyDef -> bool)
    ensures forall p :: p in Filter(props, keep) <==> p in props && keep(p)
  {
    if props != [] {
      var n := |props| - 1;
      FilterMembers(props[..n], keep);
      assert props == props[..n] + [props[n]];
    }
  }

  lemma {:induction false} FilterStep(props: seq<PropertyDef>, i: nat, keep: PropertyDef -> bool)
    requires i < |props|
    ensures Filter(props[..i + 1], keep) == Filter(props[..i], keep) + (if keep(props[i]) then [props[i]] else [])
  {
    assert props[..i + 1][..i] == props[..i];
  }

  /** Columns and values are indexed alike: the i-th value is the parameter
      of the property whose column is the i-th column. */
  lemma {:induction false} ItemsAlign(ps: seq<PropertyDef>, i: nat)
    requires i < |ps|
    ensures |Columns(ps)| == |Values(ps)| == |Assignments(ps)| == |ps|
    ensures Columns(ps)[i] == ps[i].reservedName
    ensures Values(ps)[i] == " " + ps[i].parameterizedName
    ensures Assignments(ps)[i] == " " + ps[i].reservedName + "=" + ps[i].parameterizedName
  {
    var n := |ps| - 1;
    if n > 0 {
      ItemsLength(ps[..n]);
    }
    if i < n {
      ItemsAlign(ps[..n], i);
    }
  }

  lemma ItemsSnoc(ps: seq<PropertyDef>, p: PropertyDef)
    ensures Columns(ps + [p]) == Columns(ps) + [p.reservedName]
    ensures Values(ps + [p]) == Values(ps) + [" " + p.parameterizedName]
    ensures Assignments(ps + [p]) == Assignments(ps) + [" " + p.reservedName + "=" + p.parameterizedName]
  {
    assert (ps + [p])[..|ps|] == ps;
  }

  lemma {:induction false} ItemsLength(ps: seq<PropertyDef>)
    ensures |Columns(ps)| == |Values(ps)| == |Assignments(ps)| == |ps|
  {
    if ps != [] {
      ItemsLength(ps[..|ps| - 1]);
    }
  }

  /** Removing the trailing comma, as the builder does when it is not empty. */
  function TrimLast(s: string): string
  {
    if |s| > 0 then s[..|s| - 1] else s
  }

  lemma TrimmedIsJoin(items: seq<string>)
    ensures TrimLast(Terminated(items, ",")) == Join(items, ",")
  {
    if items != [] {
      TrimTerminated(items, ',');
    }
  }

  // ---- dialect fragments ----

  /** `GetLastInsertIdStatement`. */
  function LastInsertIdStatement(engine: EngineType): (r: string)
    ensures r == "" <==> engine == OtherEngine
  {
    match engine
    case SQLite => "last_insert_rowid()"
    case MySQL => "last_insert_id()"
    case OtherEngine => ""
  }

  /** `FoundChanges_Statement`. */
  function FoundChangesStatement(engine: EngineType): (r: string)
    ensures r == "" <==> engine == OtherEngine
  {
    match engine
    case MySQL => "row_count()"
    case SQLite => " changes() "
    case OtherEngine => ""
  }

  /** `TempTable_Insert`. */
  function TempTableInsert(table: string, value: string, engine: EngineType): (r: string)
    ensures r == "" <==> engine == OtherEngine
  {
    match engine
    case MySQL => "insert into `" + table + "`(`id`) values(" + value + ");"
    case SQLite => "insert into temp." + table + "(\"id\") values(" + value + ");"
    case OtherEngine => ""
  }

  /** `TempTable_Select_All`. */
  function TempTableSelectAll(table: string, engine: EngineType): (r: string)
    ensures r == "" <==> engine == OtherEngine
  {
    match engine
    case MySQL => "select `id` from `" + table + "`;"
    case SQLite => "select id from temp." + table + ";"
    case OtherEngine => ""
  }

  /** `TempTable_Drop`. */
  function TempTableDrop(table: string, engine: EngineType): (r: string)
    ensures r == "" <==> engine == OtherEngine
  {
    match engine
    case MySQL => "drop temporary table if exists `" + table + "`;"
    case SQLite => "drop table if EXISTS temp." + table + ";"
    case OtherEngine => ""
  }

  /** `TempTable_Create`. */
  function TempTableCreate(table: string, engine: EngineType): (r: string)
    ensures r == "" <==> engine == OtherEngine
  {
    match engine
    case MySQL => "create temporary table `" + table + "` ( `id` int not null);"
    case SQLite => "create temporary table " + table + " (\"id\" integer not null);"
    case OtherEngine => ""
  }

  ghost predicate Mentions(s: string, t: string)
  {
    exists before, after :: s == before + t + after
  }

  /** On MySQL and SQLite every temporary-table statement names its table;
      on any other engine all of them are empty. */
  lemma TempTableStatementsNameTheTable(table: string, value: string, engine: ConcreteEngine)
    ensures Mentions(TempTableInsert(table, value, engine), table)
    ensures Mentions(TempTableSelectAll(table, engine), table)
    ensures Mentions(TempTableDrop(table, engine), table)
    ensures Mentions(TempTableCreate(table, engine), table)
  {
    if engine == MySQL {
      MentionsBetween(TempTableInsert(table, value, engine), "insert into `", table, "`(`id`) values(" + value + ");");
      MentionsBetween(TempTableSelectAll(table, engine), "select `id` from `", table, "`;");
      MentionsBetween(TempTableDrop(table, engine), "drop temporary table if exists `", table, "`;");
      MentionsBetween(TempTableCreate(table, engine), "create temporary table `", table, "` ( `id` int not null);");
    } else {
      MentionsBetween(TempTableInsert(table, value, engine), "insert into temp.", table, "(\"id\") values(" + value + ");");
      MentionsBetween(TempTableSelectAll(table, engine), "select id from temp.", table, ";");
      MentionsBetween(TempTableDrop(table, engine), "drop table if EXISTS temp.", table, ";");
      MentionsBetween(TempTableCreate(table, engine), "create temporary table ", table, " (\"id\" integer not null);");
    }
  }

  lemma MentionsBetween(s: string, before: string, t: string, after: string)
    requires s == before + t + after
    ensures Mentions(s, t)
  {
  }

  // ---- templates ----

  /** The insert template: the inserted columns and their parameters, then a
      select of every table column of the row whose `Id` is the last
      inserted one. */
  function AddTemplate(def: EntityDef, engine: EngineType): Result<string, Exception>
  {
    var id := GetProperty(def.properties, "Id");
    if id.Failure? then Failure(id.error)
    else
      Success(AddStatement(Text(def.tableReservedName),
                           Join(Columns(Filter(def.properties, Inserted)), ","),
                           Join(Values(Filter(def.properties, Inserted)), ","),
                           Join(Columns(Filter(def.properties, Selected)), ","),
                           id.value.reservedName, engine))
  }

  /** The update template; its `SET` list has no assignment when nothing is
      updatable. */
  function UpdateTemplate(def: EntityDef): string
  {
    "UPDATE " + Text(def.tableReservedName) + " SET " + Join(Assignments(Filter(def.properties, Updated)), ",")
  }

  /** One property's contribution to the three builders of the insert template. */
  lemma {:induction false} AddBuildersStep(props: seq<PropertyDef>, i: nat)
    requires i < |props|
    ensures Selected(props[i]) ==> (Terminated(Columns(Filter(props[..i + 1], Selected)), ",") ==
      Terminated(Columns(Filter(props[..i], Selected)), ",") + props[i].reservedName + ",")
    ensures !Selected(props[i]) ==> (Terminated(Columns(Filter(props[..i + 1], Selected)), ",") ==
      Terminated(Columns(Filter(props[..i], Selected)), ","))
    ensures Inserted(props[i]) ==> (Terminated(Columns(Filter(props[..i + 1], Inserted)), ",") ==
      Terminated(Columns(Filter(props[..i], Inserted)), ",") + props[i].reservedName + ",")
    ensures Inserted(props[i]) ==> (Terminated(Values(Filter(props[..i + 1], Inserted)), ",") ==
      Terminated(Values(Filter(props[..i], Inserted)), ",") + " " + props[i].parameterizedName + ",")
    ensures !Inserted(props[i]) ==> (Terminated(Columns(Filter(props[..i + 1], Inserted)), ",") ==
      Terminated(Columns(Filter(props[..i], Inserted)), ","))
    ensures !Inserted(props[i]) ==> (Terminated(Values(Filter(props[..i + 1], Inserted)), ",") ==
      Terminated(Values(Filter(props[..i], Inserted)), ","))
  {
    var info := props[i];
    FilterStep(props, i, Selected);
    FilterStep(props, i, Inserted);
    var selected := Filter(props[..i], Selected);
    var inserted := Filter(props[..i], Inserted);
    if Selected(info) {
      assert Filter(props[..i + 1], Selected) == selected + [info];
      ItemsSnoc(selected, info);
      TerminatedSnoc(Columns(selected), info.reservedName, ",");
    } else {
      assert Filter(props[..i + 1], Selected) == selected;
    }
    if Inserted(info) {
      assert Filter(props[..i + 1], Inserted) == inserted + [info];
      ItemsSnoc(inserted, info);
      TerminatedSnoc(Columns(inserted), info.reservedName, ",");
      TerminatedSnoc(Values(inserted), " " + info.parameterizedName, ",");
    } else {
      assert Filter(props[..i + 1], Inserted) == inserted;
    }
  }

  /** The insert statement around its three lists. */
  function AddStatement(table: string, args: string, values: string, selectArgs: string, id: string, engine: EngineType): string
  {
    "insert into " + table + "(" + args + ") values(" + values + ");select " + selectArgs +
    " from " + table + " where " + id + " = " + LastInsertIdStatement(engine) + ";"
  }

  /** `CreateAddTemplate(definition, engineType)`. */
  method CreateAddTemplate(def: EntityDef, engine: EngineType) returns (r: Result<string, Exception>)
    ensures r == AddTemplate(def, engine)
  {
    var props := def.properties;
    var args := "";
    var selectArgs := "";
    var values := "";
    var i := 0;
    while i < |props|
      invariant 0 <= i <= |props|
      invariant selectArgs == Terminated(Columns(Filter(props[..i], Selected)), ",")
      invariant args == Terminated(Columns(Filter(props[..i], Inserted)), ",")
      invariant values == Terminated(Values(Filter(props[..i], Inserted)), ",")
    {
      var info := props[i];
      AddBuildersStep(props, i);
      if info.isTableProperty {
        selectArgs := selectArgs + info.reservedName + ",";
        if !(info.isAutoIncrementPrimaryKey || info.propertyName == "LastTime") {
          args := args + info.reservedName + ",";
          values := values + " " + info.parameterizedName + ",";
        }
      }
      i := i + 1;
    }
    assert props[..|props|] == props;
    TrimmedIsJoin(Columns(Filter(props, Selected)));
    TrimmedIsJoin(Columns(Filter(props, Inserted)));
    TrimmedIsJoin(Values(Filter(props, Inserted)));
    selectArgs := TrimLast(selectArgs);
    args := TrimLast(args);
    values := TrimLast(values);
    var id := GetProperty(props, "Id");
    if id.Failure? {
      return Failure(id.error);
    }
    return Success(AddStatement(Text(def.tableReservedName), args, values, selectArgs, id.value.reservedName, engine));
  }

  /** One property's contribution to the `SET` builder of the update template. */
  lemma {:induction false} UpdateBuilderStep(props: seq<PropertyDef>, i: nat)
    requires i < |props|
    ensures Updated(props[i]) ==> (Terminated(Assignments(Filter(props[..i + 1], Updated)), ",") ==
      Terminated(Assignments(Filter(props[..i], Updated)), ",") + " " + props[i].reservedName + "=" + props[i].parameterizedName + ",")
    ensures !Updated(props[i]) ==> (Terminated(Assignments(Filter(props[..i + 1], Updated)), ",") ==
      Terminated(Assignments(Filter(props[..i], Updated)), ","))
  {
    var info := props[i];
    FilterStep(props, i, Updated);
    var done := Filter(props[..i], Updated);
    if Updated(info) {
      assert Filter(props[..i + 1], Updated) == done + [info];
      ItemsSnoc(done, info);
      TerminatedSnoc(Assignments(done), " " + info.reservedName + "=" + info.parameterizedName, ",");
    } else {
      assert Filter(props[..i + 1], Updated) == done;
    }
  }

  /** `CreateUpdateTemplate(modelDef)`. */
  method CreateUpdateTemplate(def: EntityDef) returns (r: string)
    ensures r == UpdateTemplate(def)
  {
    var props := def.properties;
    var args := "";
    var i := 0;
    while i < |props|
      invariant 0 <= i <= |props|
      invariant args == Terminated(Assignments(Filter(props[..i], Updated)), ",")
    {
      var info := props[i];
      UpdateBuilderStep(props, i);
      if info.isTableProperty && !(info.isAutoIncrementPrimaryKey || info.propertyName == "LastTime" || info.propertyName == "Deleted") {
        args := args + " " + info.reservedName + "=" + info.parameterizedName + ",";
      }
      i := i + 1;
    }
    assert props[..|props|] == props;
    TrimmedIsJoin(Assignments(Filter(props, Updated)));
    args := TrimLast(args);
    return "UPDATE " + Text(def.tableReservedName) + " SET " + args;
  }

  /** What the insert and update templates mention: only table properties;
      never the auto-increment key or `LastTime`; the update never `Deleted`;
      everything inserted is read back. The insert template fails exactly
      when the entity has no `Id` property. */
  lemma {:induction false} TemplateColumns(def: EntityDef, engine: EngineType, p: PropertyDef)
    ensures p in Filter(def.properties, Inserted) <==>
      p in def.properties && p.isTableProperty && !p.isAutoIncrementPrimaryKey && p.propertyName != "LastTime"
    ensures p in Filter(def.properties, Updated) <==>
      p in def.properties && p.isTableProperty && !p.isAutoIncrementPrimaryKey && p.propertyName != "LastTime" && p.propertyName != "Deleted"
    ensures p in Filter(def.properties, Selected) <==> p in def.properties && p.isTableProperty
    ensures p in Filter(def.properties, Inserted) ==> p in Filter(def.properties, Selected)
    ensures AddTemplate(def, engine).Success? <==> HasProperty(def.properties, "Id")
  {
    FilterMembers(def.properties, Inserted);
    FilterMembers(def.properties, Updated);
    FilterMembers(def.properties, Selected);
  }

  /** `CreateDeleteTemplate(modelDef)`: a soft delete that sets `Deleted` to
      1 and records `LastUser`; it fails when either property is missing. */
  function DeleteTemplate(def: EntityDef): (r: Result<string, Exception>)
    ensures r.Success? <==> HasProperty(def.properties, "Deleted") && HasProperty(def.properties, "LastUser")
    ensures r.Success? ==> exists deleted, lastUser ::
      deleted in def.properties && deleted.propertyName == "Deleted" &&
      lastUser in def.properties && lastUser.propertyName == "LastUser" &&
      r.value == "UPDATE " + Text(def.tableReservedName) + " SET " + deleted.reservedName + "=1," +
                 lastUser.reservedName + "=" + lastUser.parameterizedName + " "
  {
    var deleted := GetProperty(def.properties, "Deleted");
    var lastUser := GetProperty(def.properties, "LastUser");
    if deleted.Failure? then Failure(deleted.error)
    else if lastUser.Failure? then Failure(lastUser.error)
    else Success("UPDATE " + Text(def.tableReservedName) + " SET " + deleted.value.reservedName + "=1," +
                 lastUser.value.reservedName + "=" + lastUser.value.parameterizedName + " ")
  }
}
