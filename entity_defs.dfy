/** `DefaultDatabaseEntityDefFactory`: how an entity type's table and
    database are named (class attribute, settings file, engine default),
    how its definition is derived, and the cache of definitions. Reflection
    is replaced by `EntityType` records; the engine's quoting of names is a
    pair of functions. */
module EntityDefs {
  import opened Common
  import opened DatabaseErrors

  /** `EntitySchemaAttribute` on an entity class. */
  datatype SchemaAttribute = SchemaAttribute(
    databaseName: string,
    tableName: NString,
    description: NString,
    readOnly: bool,
    suffixToRemove: string)

  /** `EntityInfo`: an entry of the settings file's `Entities` list. */
  datatype EntityInfo = EntityInfo(
    entityTypeFullName: string,
    databaseName: NString,
    tableName: NString,
    description: NString,
    readOnly: bool)

  /** `EntitySchema`: where an entity type is stored. */
  datatype EntitySchema = EntitySchema(
    entityTypeFullName: string,
    databaseName: NString,
    tableName: NString,
    description: NString,
    readOnly: bool)

  /** A public property as reflection shows it: whether it carries
      `EntityPropertyIgnore`, `EntityProperty`, `AutoIncrementPrimaryKey`
      or `ForeignKey`. */
  datatype PropertyInfo = PropertyInfo(
    name: string,
    ignored: bool,
    hasPropertyAttribute: bool,
    autoIncrementPrimaryKey: bool,
    foreignKey: bool)

  /** An entity type as reflection shows it. */
  datatype EntityType = EntityType(
    fullName: string,
    name: string,
    attribute: Option<SchemaAttribute>,
    properties: seq<PropertyInfo>)

  /** `DatabaseEntityPropertyDef`; the quoted and parameter names are set
      for table properties only (empty otherwise). */
  datatype PropertyDef = PropertyDef(
    propertyName: string,
    isTableProperty: bool,
    isAutoIncrementPrimaryKey: bool,
    isForeignKey: bool,
    reservedName: string,
    parameterizedName: string)

  /** `DatabaseEntityDef`; `properties` is `PropertyDict` in insertion order. */
  datatype EntityDef = EntityDef(
    entityFullName: string,
    isTableModel: bool,
    databaseName: NString,
    tableName: NString,
    tableDescription: NString,
    tableReservedName: NString,
    databaseWriteable: bool,
    properties: seq<PropertyDef>,
    fieldCount: nat)

  /** The engine's `GetReservedStatement` and `GetParameterizedStatement`. */
  datatype Dialect = Dialect(reserved: string -> string, parameterized: string -> string)

  const DefaultStringLength: int := 200

  // ---- naming ----

  /** The table name an attribute gives: its own `TableName` when set,
      otherwise `tb_` and the lower-cased class name without the suffix. */
  function AttributeTableName(typeName: string, a: SchemaAttribute): (r: NString)
    ensures !IsNullOrEmpty(a.tableName) ==> r == a.tableName
    ensures IsNullOrEmpty(a.tableName) && EndsWith(typeName, a.suffixToRemove) ==>
      r == Some("tb_" + Lower(typeName[..|typeName| - |a.suffixToRemove|]))
    ensures IsNullOrEmpty(a.tableName) && !EndsWith(typeName, a.suffixToRemove) ==>
      r == Some("tb_" + Lower(typeName))
  {
    if IsNullOrEmpty(a.tableName) then
      if EndsWith(typeName, a.suffixToRemove) then Some("tb_" + Lower(typeName[..|typeName| - |a.suffixToRemove|]))
      else Some("tb_" + Lower(typeName))
    else a.tableName
  }

  /** The schema built for one type (the body of `ConstructeSchemaDict`'s
      loop): the attribute first, the settings file over it, then the
      engine's first database name and the default table name for whatever
      is still empty. */
  function SchemaFor(t: EntityType, file: Option<EntityInfo>, firstDefault: NString): EntitySchema
  {
    var s0 := EntitySchema(t.fullName, None, None, None, false);
    var s1 := if t.attribute.None? then s0 else
      var a := t.attribute.value;
      s0.(databaseName := if a.databaseName == "" then firstDefault else Some(a.databaseName),
          tableName := AttributeTableName(t.name, a),
          description := a.description,
          readOnly := a.readOnly);
    var s2 := if file.None? then s1 else
      var f := file.value;
      s1.(databaseName := if IsNullOrEmpty(f.databaseName) then s1.databaseName else f.databaseName,
          tableName := if IsNullOrEmpty(f.tableName) then s1.tableName else f.tableName,
          description := if IsNullOrEmpty(f.description) then s1.description else f.description,
          readOnly := f.readOnly);
    var s3 := if IsNullOrEmpty(s2.databaseName) then s2.(databaseName := firstDefault) else s2;
    if IsNullOrEmpty(s3.tableName) then s3.(tableName := Some("tb_" + Lower(t.name))) else s3
  }

  /** Whether the settings file names the database, the table, the description. */
  predicate FileDatabase(file: Option<EntityInfo>) { file.Some? && !IsNullOrEmpty(file.value.databaseName) }
  predicate FileTable(file: Option<EntityInfo>) { file.Some? && !IsNullOrEmpty(file.value.tableName) }
  predicate FileDescription(file: Option<EntityInfo>) { file.Some? && !IsNullOrEmpty(file.value.description) }

  /** The precedence rules of the schema: the settings file wins where it
      has a non-empty value (and always for `ReadOnly`), then the attribute,
      then the defaults. Every schema has a non-empty table name. */
  lemma SchemaPrecedence(t: EntityType, file: Option<EntityInfo>, firstDefault: NString)
    ensures var s := SchemaFor(t, file, firstDefault);
      && s.entityTypeFullName == t.fullName
      && (FileDatabase(file) ==> s.databaseName == file.value.databaseName)
      && (!FileDatabase(file) && t.attribute.Some? && t.attribute.value.databaseName != "" ==>
            s.databaseName == Some(t.attribute.value.databaseName))
      && (!FileDatabase(file) && (t.attribute.None? || t.attribute.value.databaseName == "") ==>
            s.databaseName == firstDefault)
      && (FileTable(file) ==> s.tableName == file.value.tableName)
      && (!FileTable(file) && t.attribute.Some? ==>
            s.tableName == AttributeTableName(t.name, t.attribute.value))
      && (!FileTable(file) && t.attribute.None? ==>
            s.tableName == Some("tb_" + Lower(t.name)))
      && (FileDescription(file) ==> s.description == file.value.description)
      && (!FileDescription(file) && t.attribute.Some? ==> s.description == t.attribute.value.description)
      && (!FileDescription(file) && t.attribute.None? ==> s.description.None?)
      && s.readOnly == (if file.Some? then file.value.readOnly else t.attribute.Some? && t.attribute.value.readOnly)
      && s.tableName.Some? && s.tableName.value != ""
  {
  }

  /** With an attribute that names no table, the default strips the suffix;
      without attribute or file entry, the name is `tb_` and the whole
      lower-cased class name, even when it ends with the suffix. */
  lemma {:induction false} SuffixOnlyStrippedThroughAttribute(t: EntityType, firstDefault: NString)
    requires t.attribute.None?
    ensures SchemaFor(t, None, firstDefault).tableName == Some("tb_" + Lower(t.name))
    ensures SchemaFor(t.(attribute := Some(SchemaAttribute("", None, None, false, "Entity"))), None, firstDefault).tableName ==
      Some("tb_" + Lower(if EndsWith(t.name, "Entity") then t.name[..|t.name| - 6] else t.name))
  {
    SchemaPrecedence(t, None, firstDefault);
    SchemaPrecedence(t.(attribute := Some(SchemaAttribute("", None, None, false, "Entity"))), None, firstDefault);
  }

  // ---- the schema dictionary ----

  /** `_databaseSettings.Entities.ToDictionary(t => t.EntityTypeFullName)`:
      a repeated type name is an `ArgumentException`. */
  function FileConfigured(entities: seq<EntityInfo>): Result<map<string, EntityInfo>, Exception>
  {
    if entities == [] then Success(map[])
    else
      var n := |entities| - 1;
      var e := entities[n];
      var init := FileConfigured(entities[..n]);
      if init.Failure? then init
      else if e.entityTypeFullName in init.value then
        Failure(Other("ArgumentException", "An item with the same key has already been added."))
      else Success(init.value[e.entityTypeFullName := e])
  }

  predicate DistinctEntries(entities: seq<EntityInfo>) {
    forall i, j :: 0 <= i < j < |entities| ==> entities[i].entityTypeFullName != entities[j].entityTypeFullName
  }

  /** Appending an entry keeps the names distinct exactly when its name is
      not among the earlier ones. */
  lemma {:induction false} DistinctEntriesSnoc(entities: seq<EntityInfo>)
    requires entities != []
    ensures var n := |entities| - 1;
      DistinctEntries(entities) <==>
        DistinctEntries(entities[..n]) &&
        forall i :: 0 <= i < n ==> entities[i].entityTypeFullName != entities[n].entityTypeFullName
  {
    var n := |entities| - 1;
    assert forall i :: 0 <= i < n ==> entities[..n][i] == entities[i];
  }

  /** The dictionary is built exactly when no two entries share a type
      name; it then maps each entry's name to that entry and holds no other
      key. */
  lemma {:induction false} FileConfiguredOutcome(entities: seq<EntityInfo>)
    ensures var r := FileConfigured(entities);
      r.Success? <==> forall i, j :: 0 <= i < j < |entities| ==>
        entities[i].entityTypeFullName != entities[j].entityTypeFullName
    ensures var r := FileConfigured(entities);
      r.Success? ==> forall i :: 0 <= i < |entities| ==>
        entities[i].entityTypeFullName in r.value && r.value[entities[i].entityTypeFullName] == entities[i]
    ensures var r := FileConfigured(entities);
      r.Success? ==> forall k :: k in r.value ==> exists i :: 0 <= i < |entities| && entities[i].entityTypeFullName == k
  {
    if entities != [] {
      var n := |entities| - 1;
      var e := entities[n];
      var init := entities[..n];
      FileConfiguredOutcome(init);
      DistinctEntriesSnoc(entities);
      assert forall i :: 0 <= i < n ==> init[i] == entities[i];
      var r := FileConfigured(init);
      if r.Success? && e.entityTypeFullName in r.value {
        var i :| 0 <= i < n && init[i].entityTypeFullName == e.entityTypeFullName;
        assert entities[i].entityTypeFullName == entities[n].entityTypeFullName;
      }
    }
  }

  function Lookup(file: map<string, EntityInfo>, key: string): Option<EntityInfo>
  {
    if key in file then Some(file[key]) else None
  }

  /** The dictionary after the loop has seen `types`; `Add` of a type name
      already present is an `ArgumentException`. */
  function SchemaFold(types: seq<EntityType>, file: map<string, EntityInfo>, firstDefault: NString): Result<map<string, EntitySchema>, Exception>
  {
    if types == [] then Success(map[])
    else
      var n := |types| - 1;
      var init := SchemaFold(types[..n], file, firstDefault);
      if init.Failure? then init
      else if types[n].fullName in init.value then Failure(Other("ArgumentException", "An item with the same key has already been added."))
      else Success(init.value[types[n].fullName := SchemaFor(types[n], Lookup(file, types[n].fullName), firstDefault)])
  }

  function SchemaDict(types: seq<EntityType>, entities: seq<EntityInfo>, firstDefault: NString): Result<map<string, EntitySchema>, Exception>
  {
    var file := FileConfigured(entities);
    if file.Failure? then Failure(file.error) else SchemaFold(types, file.value, firstDefault)
  }

  predicate DistinctNames(types: seq<EntityType>) {
    forall i, j :: 0 <= i < j < |types| ==> types[i].fullName != types[j].fullName
  }

  function NameSet(types: seq<EntityType>): set<string> {
    set i | 0 <= i < |types| :: types[i].fullName
  }

  /** Appending a type keeps the names distinct exactly when its name is new. */
  lemma {:induction false} DistinctNamesSnoc(types: seq<EntityType>)
    requires types != []
    ensures var n := |types| - 1;
      DistinctNames(types) <==> DistinctNames(types[..n]) && types[n].fullName !in NameSet(types[..n])
    ensures var n := |types| - 1;
      NameSet(types) == NameSet(types[..n]) + {types[n].fullName}
  {
    var n := |types| - 1;
    var init := types[..n];
    assert forall i :: 0 <= i < n ==> init[i] == types[i];
    if types[n].fullName in NameSet(init) {
      var i :| 0 <= i < n && init[i].fullName == types[n].fullName;
      assert types[i].fullName == types[n].fullName;
    }
  }

  /** The construction fails exactly when two types share a full name. */
  lemma {:induction false} SchemaFoldSucceeds(types: seq<EntityType>, file: map<string, EntityInfo>, firstDefault: NString)
    ensures SchemaFold(types, file, firstDefault).Success? <==>
      forall i, j :: 0 <= i < j < |types| ==> types[i].fullName != types[j].fullName
    ensures SchemaFold(types, file, firstDefault).Success? ==>
      SchemaFold(types, file, firstDefault).value.Keys == set i | 0 <= i < |types| :: types[i].fullName
  {
    if types != [] {
      var n := |types| - 1;
      var init := types[..n];
      SchemaFoldSucceeds(init, file, firstDefault);
      DistinctNamesSnoc(types);
      assert SchemaFold(init, file, firstDefault).Success? <==> DistinctNames(init);
      assert SchemaFold(init, file, firstDefault).Success? ==>
        SchemaFold(init, file, firstDefault).value.Keys == NameSet(init);
      assert SchemaFold(types, file, firstDefault).Success? <==> DistinctNames(types);
    }
  }

  /** Every type gets a schema (not only those with an attribute or a file
      entry): the one its attribute and file entry give. */
  lemma {:induction false} SchemaFoldEntry(types: seq<EntityType>, file: map<string, EntityInfo>, firstDefault: NString, i: nat)
    requires i < |types|
    requires SchemaFold(types, file, firstDefault).Success?
    ensures var m := SchemaFold(types, file, firstDefault).value;
      types[i].fullName in m && m[types[i].fullName] == SchemaFor(types[i], Lookup(file, types[i].fullName), firstDefault)
  {
    var n := |types| - 1;
    var init := types[..n];
    if i < n {
      assert init[i] == types[i];
      SchemaFoldEntry(init, file, firstDefault, i);
    }
  }

  /** `ConstructeSchemaDict(allEntityTypes)`. */
  method ConstructSchemaDict(types: seq<EntityType>, entities: seq<EntityInfo>, firstDefault: NString)
    returns (r: Result<map<string, EntitySchema>, Exception>)
    ensures r == SchemaDict(types, entities, firstDefault)
  {
    var file := FileConfigured(entities);
    if file.Failure? {
      return Failure(file.error);
    }
    var result: map<string, EntitySchema> := map[];
    var i := 0;
    while i < |types|
      invariant 0 <= i <= |types|
      invariant SchemaFold(types[..i], file.value, firstDefault) == Success(result)
    {
      var t := types[i];
      assert types[..i + 1][..i] == types[..i];
      if t.fullName in result {
        assert SchemaFold(types[..i + 1], file.value, firstDefault).Failure?;
        SchemaFoldFailureSticks(types, i + 1, file.value, firstDefault);
        return Failure(Other("ArgumentException", "An item with the same key has already been added."));
      }
      result := result[t.fullName := SchemaFor(t, Lookup(file.value, t.fullName), firstDefault)];
      i := i + 1;
    }
    assert types[..|types|] == types;
    return Success(result);
  }

  /** A failure part-way through is the failure of the whole loop. */
  lemma {:induction false} SchemaFoldFailureSticks(types: seq<EntityType>, k: nat, file: map<string, EntityInfo>, firstDefault: NString)
    requires k <= |types|
    requires SchemaFold(types[..k], file, firstDefault).Failure?
    ensures SchemaFold(types, file, firstDefault) == SchemaFold(types[..k], file, firstDefault)
    decreases |types| - k
  {
    if k < |types| {
      assert types[..k + 1][..k] == types[..k];
      SchemaFoldFailureSticks(types, k + 1, file, firstDefault);
    } else {
      assert types[..k] == types;
    }
  }

  // ---- definitions ----

  /** `CreatePropertyDef`: a property is a table column when it carries
      `EntityProperty`, `AutoIncrementPrimaryKey` or `ForeignKey`. */
  function PropertyDefOf(p: PropertyInfo, dialect: Dialect): (r: PropertyDef)
    ensures r.propertyName == p.name
    ensures r.isTableProperty <==> p.hasPropertyAttribute || p.autoIncrementPrimaryKey || p.foreignKey
    ensures r.isAutoIncrementPrimaryKey <==> p.autoIncrementPrimaryKey
    ensures r.isForeignKey <==> !p.autoIncrementPrimaryKey && p.foreignKey
    ensures r.isTableProperty ==> r.reservedName == dialect.reserved(p.name) && r.parameterizedName == dialect.parameterized(p.name)
  {
    var isTable := p.hasPropertyAttribute || p.autoIncrementPrimaryKey || p.foreignKey;
    PropertyDef(p.name, isTable, p.autoIncrementPrimaryKey, !p.autoIncrementPrimaryKey && p.foreignKey,
                if isTable then dialect.reserved(p.name) else "",
                if isTable then dialect.parameterized(p.name) else "")
  }

  /** The table part of a definition: set from the schema when there is one. */
  function TablePart(t: EntityType, schemas: map<string, EntitySchema>, dialect: Dialect): (r: EntityDef)
    ensures r.entityFullName == t.fullName && r.properties == [] && r.fieldCount == 0
    ensures r.isTableModel <==> t.fullName in schemas
    ensures t.fullName in schemas ==>
      var s := schemas[t.fullName];
      r.databaseName == s.databaseName && r.tableName == s.tableName && r.databaseWriteable == !s.readOnly
    ensures t.fullName !in schemas ==> r.databaseName.None? && r.tableName.None? && !r.databaseWriteable
  {
    if t.fullName in schemas then
      var s := schemas[t.fullName];
      EntityDef(t.fullName, true, s.databaseName, s.tableName, s.description,
                if s.tableName.Some? then Some(dialect.reserved(s.tableName.value)) else None,
                !s.readOnly, [], 0)
    else EntityDef(t.fullName, false, None, None, None, None, false, [], 0)
  }

  predicate HasProperty(props: seq<PropertyDef>, name: string)
  {
    exists i :: 0 <= i < |props| && props[i].propertyName == name
  }

  /** The property loop: every property not marked ignored is added to
      `PropertyDict` (a repeated name is an `ArgumentException`) and counted. */
  function AddProperties(def: EntityDef, props: seq<PropertyInfo>, dialect: Dialect): Result<EntityDef, Exception>
  {
    if props == [] then Success(def)
    else
      var n := |props| - 1;
      var init := AddProperties(def, props[..n], dialect);
      if init.Failure? || props[n].ignored then init
      else if HasProperty(init.value.properties, props[n].name) then
        Failure(Other("ArgumentException", "An item with the same key has already been added."))
      else Success(init.value.(properties := init.value.properties + [PropertyDefOf(props[n], dialect)],
                               fieldCount := init.value.fieldCount + 1))
  }

  function EntityDefOf(t: EntityType, schemas: map<string, EntitySchema>, dialect: Dialect): Result<EntityDef, Exception>
  {
    AddProperties(TablePart(t, schemas, dialect), t.properties, dialect)
  }

  /** The table part is untouched by the property loop, which keeps exactly
      the properties not ignored, in order, and counts them. */
  lemma {:induction false} AddPropertiesContents(def: EntityDef, props: seq<PropertyInfo>, dialect: Dialect)
    requires def.properties == [] && def.fieldCount == 0
    ensures var r := AddProperties(def, props, dialect);
      r.Success? ==>
        && r.value == def.(properties := r.value.properties, fieldCount := r.value.fieldCount)
        && r.value.fieldCount == |r.value.properties|
        && r.value.properties == Kept(props, dialect)
  {
    if props != [] {
      var n := |props| - 1;
      AddPropertiesContents(def, props[..n], dialect);
    }
  }

  /** The definitions of the properties not marked ignored, in order. */
  function Kept(props: seq<PropertyInfo>, dialect: Dialect): seq<PropertyDef>
  {
    if props == [] then []
    else Kept(props[..|props| - 1], dialect) + (if props[|props| - 1].ignored then [] else [PropertyDefOf(props[|props| - 1], dialect)])
  }

  /** `CreateEntityDef(type)`. */
  method CreateEntityDef(t: EntityType, schemas: map<string, EntitySchema>, dialect: Dialect) returns (r: Result<EntityDef, Exception>)
    ensures r == EntityDefOf(t, schemas, dialect)
  {
    var def := TablePart(t, schemas, dialect);
    var i := 0;
    while i < |t.properties|
      invariant 0 <= i <= |t.properties|
      invariant AddProperties(TablePart(t, schemas, dialect), t.properties[..i], dialect) == Success(def)
    {
      var p := t.properties[i];
      AddPropertiesStep(TablePart(t, schemas, dialect), t.properties, i, dialect);
      if !p.ignored {
        if HasProperty(def.properties, p.name) {
          AddPropertiesFailureSticks(TablePart(t, schemas, dialect), t.properties, i + 1, dialect);
          return Failure(Other("ArgumentException", "An item with the same key has already been added."));
        }
        def := def.(properties := def.properties + [PropertyDefOf(p, dialect)], fieldCount := def.fieldCount + 1);
      }
      i := i + 1;
    }
    assert t.properties[..|t.properties|] == t.properties;
    return Success(def);
  }

  /** One more property after a prefix that succeeded. */
  lemma {:induction false} AddPropertiesStep(def: EntityDef, props: seq<PropertyInfo>, i: nat, dialect: Dialect)
    requires i < |props| && AddProperties(def, props[..i], dialect).Success?
    ensures var init := AddProperties(def, props[..i], dialect).value;
      AddProperties(def, props[..i + 1], dialect) ==
        if props[i].ignored then Success(init)
        else if HasProperty(init.properties, props[i].name) then
          Failure(Other("ArgumentException", "An item with the same key has already been added."))
        else Success(init.(properties := init.properties + [PropertyDefOf(props[i], dialect)], fieldCount := init.fieldCount + 1))
  {
    assert props[..i + 1][..i] == props[..i];
  }

  lemma {:induction false} AddPropertiesFailureSticks(def: EntityDef, props: seq<PropertyInfo>, k: nat, dialect: Dialect)
    requires k <= |props|
    requires AddProperties(def, props[..k], dialect).Failure?
    ensures AddProperties(def, props, dialect) == AddProperties(def, props[..k], dialect)
    decreases |props| - k
  {
    if k < |props| {
      assert props[..k + 1][..k] == props[..k];
      AddPropertiesFailureSticks(def, props, k + 1, dialect);
    } else {
      assert props[..k] == props;
    }
  }

  /** A type is a table model exactly when the schema dictionary has it;
      a table model is writeable exactly when its schema is not read-only. */
  lemma {:induction false} DefinitionFlags(t: EntityType, schemas: map<string, EntitySchema>, dialect: Dialect)
    ensures var r := EntityDefOf(t, schemas, dialect);
      r.Success? ==>
        && (r.value.isTableModel <==> t.fullName in schemas)
        && (t.fullName in schemas ==> r.value.databaseWriteable == !schemas[t.fullName].readOnly
                                      && r.value.databaseName == schemas[t.fullName].databaseName)
        && r.value.fieldCount == |Kept(t.properties, dialect)|
  {
    AddPropertiesContents(TablePart(t, schemas, dialect), t.properties, dialect);
  }

  /** Property names of a definition are distinct: the loop only succeeds
      when the non-ignored names are. */
  lemma {:induction false} AddPropertiesDistinct(def: EntityDef, props: seq<PropertyInfo>, dialect: Dialect)
    requires def.properties == []
    ensures var r := AddProperties(def, props, dialect);
      r.Success? ==> forall i, j :: 0 <= i < j < |r.value.properties| ==>
        r.value.properties[i].propertyName != r.value.properties[j].propertyName
  {
    if props != [] {
      var n := |props| - 1;
      AddPropertiesDistinct(def, props[..n], dialect);
    }
  }

  // ---- lookups over the cache ----

  /** `_defDict.Values.Where(def => def.DatabaseName.Equals(databaseName,
      ignoring case))`: a definition without a database name (a type that is
      not a table model) makes the filter throw `NullReferenceException`. */
  function DefsByDatabase(defs: seq<EntityDef>, db: string): (r: Result<seq<EntityDef>, Exception>)
    ensures r.Success? <==> forall i :: 0 <= i < |defs| ==> defs[i].databaseName.Some?
    ensures r.Success? ==> forall d :: d in r.value <==> d in defs && EqualsIgnoreCase(d.databaseName.value, db)
    ensures r.Failure? ==> r.error == Other("NullReferenceException", "DatabaseName")
  {
    if defs == [] then Success([])
    else if defs[0].databaseName.None? then Failure(Other("NullReferenceException", "DatabaseName"))
    else
      var rest := DefsByDatabase(defs[1..], db);
      if rest.Failure? then rest
      else if EqualsIgnoreCase(defs[0].databaseName.value, db) then Success([defs[0]] + rest.value)
      else rest
  }

  /** Appending a named definition to a list whose filter succeeds extends
      the filtered list by it exactly when it belongs to the database. */
  lemma {:induction false} DefsByDatabaseSnoc(defs: seq<EntityDef>, d: EntityDef, db: string)
    requires DefsByDatabase(defs, db).Success? && d.databaseName.Some?
    ensures DefsByDatabase(defs + [d], db) ==
      Success(DefsByDatabase(defs, db).value + (if EqualsIgnoreCase(d.databaseName.value, db) then [d] else []))
    decreases |defs|
  {
    if defs == [] {
      assert defs + [d] == [d];
      assert [d][1..] == [];
      assert DefsByDatabase([d][1..], db) == Success([]);
      assert [d] + [] == [] + [d] == [d];
    } else {
      var extra := if EqualsIgnoreCase(d.databaseName.value, db) then [d] else [];
      assert (defs + [d])[1..] == defs[1..] + [d];
      assert (defs + [d])[0] == defs[0];
      DefsByDatabaseSnoc(defs[1..], d, db);
      var rest := DefsByDatabase(defs[1..], db).value;
      assert DefsByDatabase(defs[1..] + [d], db) == Success(rest + extra);
      if EqualsIgnoreCase(defs[0].databaseName.value, db) {
        assert [defs[0]] + (rest + extra) == ([defs[0]] + rest) + extra;
      }
    }
  }

  /** `GetVarcharDefaultLength()`: 200 when the setting is 0. */
  function VarcharDefaultLength(configured: int): (r: int)
    ensures configured == 0 ==> r == DefaultStringLength
    ensures configured != 0 ==> r == configured
    ensures r != 0
  {
    if configured == 0 then DefaultStringLength else configured
  }

  // ---- the definition cache ----

  /** The key order of a dictionary after each of `types` is assigned into
      one whose keys were added in `order`: a type not yet present goes to
      the end, a present one keeps its place. */
  function AppendNew(order: seq<EntityType>, types: seq<EntityType>): seq<EntityType>
    decreases |types|
  {
    if types == [] then order
    else
      var init := AppendNew(order, types[..|types| - 1]);
      var t := types[|types| - 1];
      if t in init then init else init + [t]
  }

  predicate DistinctTypes(types: seq<EntityType>) {
    forall i, j :: 0 <= i < j < |types| ==> types[i] != types[j]
  }

  /** The new order holds exactly the old keys and the assigned types, each
      once, and starts with the old order. */
  lemma {:induction false} AppendNewContents(order: seq<EntityType>, types: seq<EntityType>)
    requires DistinctTypes(order)
    ensures forall t :: t in AppendNew(order, types) <==> t in order || t in types
    ensures DistinctTypes(AppendNew(order, types))
    ensures |order| <= |AppendNew(order, types)| && AppendNew(order, types)[..|order|] == order
    decreases |types|
  {
    if types != [] {
      var n := |types| - 1;
      AppendNewContents(order, types[..n]);
      assert types == types[..n] + [types[n]];
      var init := AppendNew(order, types[..n]);
      if types[n] !in init {
        assert (init + [types[n]])[..|order|] == init[..|order|];
      }
    }
  }

  /** Assigning types that are all distinct and new appends them as they
      come. */
  lemma {:induction false} AppendNewOfDistinct(order: seq<EntityType>, types: seq<EntityType>)
    requires DistinctTypes(types) && forall i :: 0 <= i < |types| ==> types[i] !in order
    ensures AppendNew(order, types) == order + types
    decreases |types|
  {
    if types != [] {
      var n := |types| - 1;
      AppendNewOfDistinct(order, types[..n]);
      assert types[n] !in types[..n];
      assert order + types[..n] + [types[n]] == order + types;
    }
  }

  class EntityDefFactory {
    const schemas: map<string, EntitySchema>
    const dialect: Dialect
    const defaultVarcharLength: int
    /** `_defDict`, and the order in which its keys were first added. */
    var defs: map<EntityType, EntityDef>
    var order: seq<EntityType>

    ghost predicate Valid()
      reads this
    {
      (forall t :: t in defs <==> t in order) &&
      (forall i, j :: 0 <= i < j < |order| ==> order[i] != order[j])
    }

    /** The cached definitions in the dictionary's enumeration order. */
    function Values(): (r: seq<EntityDef>)
      reads this
      requires Valid()
      ensures |r| == |order|
      ensures forall i :: 0 <= i < |order| ==> r[i] == defs[order[i]]
    {
      seq(|order|, i requires 0 <= i < |order| && order[i] in defs reads this => defs[order[i]])
    }

    constructor (schemas: map<string, EntitySchema>, dialect: Dialect, defaultVarcharLength: int)
      ensures this.schemas == schemas && this.dialect == dialect && this.defaultVarcharLength == defaultVarcharLength
      ensures defs == map[] && order == [] && Valid()
    {
      this.schemas := schemas;
      this.dialect := dialect;
      this.defaultVarcharLength := defaultVarcharLength;
      defs := map[];
      order := [];
    }

    function GetVarcharDefaultLength(): int
      reads this
    {
      VarcharDefaultLength(defaultVarcharLength)
    }

    method Store(t: EntityType, def: EntityDef)
      requires Valid()
      modifies this
      ensures Valid()
      ensures defs == old(defs)[t := def]
      ensures order == if t in old(defs) then old(order) else old(order) + [t]
    {
      if t !in defs {
        order := order + [t];
      }
      defs := defs[t := def];
    }

    /** `GetDef(type)`: a cached definition is returned as is; otherwise one
        is created and cached, so later calls return that same definition. */
    method GetDef(t: EntityType) returns (r: Result<EntityDef, Exception>)
      requires Valid()
      modifies this
      ensures Valid()
      ensures old(t in defs) ==> r == Success(old(defs[t])) && defs == old(defs) && order == old(order)
      ensures !old(t in defs) ==> r == EntityDefOf(t, schemas, dialect)
      ensures !old(t in defs) && r.Success? ==> defs == old(defs)[t := r.value] && order == old(order) + [t]
      ensures !old(t in defs) && r.Failure? ==> defs == old(defs) && order == old(order)
      ensures r.Success? ==> t in defs && defs[t] == r.value
    {
      if t in defs {
        return Success(defs[t]);
      }
      r := CreateEntityDef(t, schemas, dialect);
      if r.Success? {
        Store(t, r.value);
      }
    }

    /** `WarmUp(allEntityTypes)`: a definition is created and stored for
        every type, replacing any cached one; the first failure stops it.
        Types not assigned keep their definitions, and new keys are added
        to the order in first-occurrence order. */
    method WarmUp(types: seq<EntityType>) returns (thrown: Option<Exception>)
      requires Valid()
      modifies this
      ensures Valid()
      ensures thrown.None? <==> forall i :: 0 <= i < |types| ==> EntityDefOf(types[i], schemas, dialect).Success?
      ensures thrown.None? ==> forall i :: 0 <= i < |types| ==>
        types[i] in defs && defs[types[i]] == EntityDefOf(types[i], schemas, dialect).value
      ensures thrown.None? ==> (forall t :: t in defs <==> t in old(defs) || t in types)
      ensures thrown.None? ==> forall t :: t in old(defs) && t !in types ==> t in defs && defs[t] == old(defs)[t]
      ensures thrown.None? ==> order == AppendNew(old(order), types)
      ensures thrown.Some? ==>
        exists k :: 0 <= k < |types| && EntityDefOf(types[k], schemas, dialect).Failure? &&
          (forall j :: 0 <= j < k ==> EntityDefOf(types[j], schemas, dialect).Success?) &&
          thrown == Some(EntityDefOf(types[k], schemas, dialect).error)
    {
      var i := 0;
      while i < |types|
        invariant 0 <= i <= |types|
        invariant Valid()
        invariant forall j :: 0 <= j < i ==>
          EntityDefOf(types[j], schemas, dialect).Success? &&
          types[j] in defs && defs[types[j]] == EntityDefOf(types[j], schemas, dialect).value
        invariant forall t :: t in defs <==> t in old(defs) || t in types[..i]
        invariant forall t :: t in old(defs) && t !in types[..i] ==> t in defs && defs[t] == old(defs)[t]
        invariant order == AppendNew(old(order), types[..i])
      {
        var r := CreateEntityDef(types[i], schemas, dialect);
        if r.Failure? {
          return Some(r.error);
        }
        ghost var before := defs;
        PrefixSnoc(types, i);
        Store(types[i], r.value);
        forall j | 0 <= j < i + 1
          ensures types[j] in defs && defs[types[j]] == EntityDefOf(types[j], schemas, dialect).value
        {
          if types[j] != types[i] {
            assert defs[types[j]] == before[types[j]];
          }
        }
        i := i + 1;
      }
      assert types[..i] == types;
      return None;
    }

    /** `GetAllDefsByDatabase(databaseName)`. */
    function GetAllDefsByDatabase(db: string): Result<seq<EntityDef>, Exception>
      reads this
      requires Valid()
    {
      DefsByDatabase(Values(), db)
    }
  }

  /** The `DefaultDatabaseEntityDefFactory` constructor: the schema
      dictionary of all entity types, then the warm-up over the same types;
      an exception of either step escapes the constructor. A constructed
      factory caches exactly the entity types, in their enumeration order. */
  method NewEntityDefFactory(types: seq<EntityType>, entities: seq<EntityInfo>, firstDefault: NString,
                             dialect: Dialect, defaultVarcharLength: int)
    returns (r: Result<EntityDefFactory, Exception>)
    ensures SchemaDict(types, entities, firstDefault).Failure? ==> r == Failure(SchemaDict(types, entities, firstDefault).error)
    ensures r.Success? <==>
      SchemaDict(types, entities, firstDefault).Success? &&
      forall i :: 0 <= i < |types| ==> EntityDefOf(types[i], SchemaDict(types, entities, firstDefault).value, dialect).Success?
    ensures r.Success? ==>
      fresh(r.value) && r.value.Valid() &&
      r.value.schemas == SchemaDict(types, entities, firstDefault).value &&
      r.value.dialect == dialect && r.value.defaultVarcharLength == defaultVarcharLength &&
      r.value.order == types && (forall t :: t in r.value.defs <==> t in types) &&
      |r.value.Values()| == |types| &&
      forall i :: 0 <= i < |types| ==> r.value.Values()[i] == EntityDefOf(types[i], r.value.schemas, dialect).value
  {
    var schemas := ConstructSchemaDict(types, entities, firstDefault);
    if schemas.Failure? {
      return Failure(schemas.error);
    }
    var file := FileConfigured(entities);
    SchemaFoldSucceeds(types, file.value, firstDefault);
    assert DistinctTypes(types) by {
      forall i, j | 0 <= i < j < |types|
        ensures types[i] != types[j]
      {
        assert types[i].fullName != types[j].fullName;
      }
    }
    AppendNewOfDistinct([], types);
    var factory := new EntityDefFactory(schemas.value, dialect, defaultVarcharLength);
    var thrown := factory.WarmUp(types);
    if thrown.Some? {
      return Failure(thrown.value);
    }
    assert [] + types == types;
    return Success(factory);
  }
}
