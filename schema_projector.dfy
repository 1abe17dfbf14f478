/** The simplified schema handed to the policy engine
    (simple_schema_generator.py:25-60): every model of a dbt schema, and
    every column of each, projected onto a flat record annotated with its
    security role, a sensitivity flag and, when there is one, its entry in
    the sensitive-field mapping. The inputs are only read. */
module SchemaProjector {
  import opened Values

  /** A column's `meta` block; only `column_security_role` is read. */
  datatype Meta = Meta(columnSecurityRole: Option<Value>)

  /** A column declaration; `None` marks a key that is absent. A key that is
      present keeps whatever value it holds, null included. */
  datatype ColumnDecl = ColumnDecl(name: Option<Value>, description: Option<Value>, meta: Option<Meta>)

  /** A model declaration; `None` marks a key that is absent. */
  datatype ModelDecl = ModelDecl(name: Option<Value>, description: Option<Value>, columns: Option<seq<ColumnDecl>>)

  /** The dbt schema document; `None` when it has no `models` key. */
  datatype DbtSchema = DbtSchema(models: Option<seq<ModelDecl>>)

  /** One projected column. `securityRole` is `Null` when absent; `mapping`
      is `None` when the record has no `mapping` key. */
  datatype ColumnRecord = ColumnRecord(
    name: Value,
    description: Value,
    securityRole: Value,
    isSensitive: bool,
    mapping: Option<Value>)

  datatype ModelRecord = ModelRecord(name: Value, description: Value, columns: seq<ColumnRecord>)

  /** `{"models": [...]}` */
  datatype SchemaBody = SchemaBody(models: seq<ModelRecord>)

  /** `{"schema": {...}}` */
  datatype SchemaData = SchemaData(schema: SchemaBody)

  /** `{"input": {...}}`: the whole document is the policy engine's input. */
  datatype PolicyInput = PolicyInput(input: SchemaData)

  /** What the source relies on without checking: a non-empty mapping is a
      key-value mapping whose `fields`, when present, is a mapping too. An
      empty or missing mapping (Python's `None`) is never looked into. */
  predicate MappingReadable(mapping: Value) {
    Truthy(mapping) ==>
      mapping.Dict? && (Get(mapping.entries, "fields").Some? ==> Get(mapping.entries, "fields").value.Dict?)
  }

  /** `column.get("meta", {}).get("column_security_role")`. */
  function SecurityRole(c: ColumnDecl): Value {
    match c.meta
    case None => Null
    case Some(m) => m.columnSecurityRole.GetOr(Null)
  }

  /** `mapping.get("fields", {})` for a non-empty mapping. */
  function MappingFields(mapping: Value): seq<(string, Value)>
    requires MappingReadable(mapping) && Truthy(mapping)
  {
    match Get(mapping.entries, "fields")
    case None => []
    case Some(fields) => fields.entries
  }

  /** The `mapping` key of a column named `name`: only with a non-empty
      mapping, and only when the entry `fields[name]` is itself non-empty.
      The mapping's keys are strings, so a name that is not a string finds
      no entry. */
  function MappingAnnotation(mapping: Value, name: Value): Option<Value>
    requires MappingReadable(mapping)
  {
    if Truthy(mapping) then
      var entry := if name.Str? then Get(MappingFields(mapping), name.s) else None;
      var info := entry.GetOr(Dict([]));
      if Truthy(info) then Some(info) else None
    else None
  }

  function ProjectColumn(c: ColumnDecl, mapping: Value): ColumnRecord
    requires MappingReadable(mapping)
  {
    var name := c.name.GetOr(Str(""));
    var role := SecurityRole(c);
    ColumnRecord(name, c.description.GetOr(Str("")), role, Truthy(role), MappingAnnotation(mapping, name))
  }

  function ColumnsOf(m: ModelDecl): seq<ColumnDecl> {
    m.columns.GetOr([])
  }

  function ProjectModel(m: ModelDecl, mapping: Value): ModelRecord
    requires MappingReadable(mapping) || ColumnsOf(m) == []
  {
    var cs := ColumnsOf(m);
    ModelRecord(m.name.GetOr(Str("")), m.description.GetOr(Str("")),
      seq(|cs|, j requires 0 <= j < |cs| => ProjectColumn(cs[j], mapping)))
  }

  function ModelsOf(s: DbtSchema): seq<ModelDecl> {
    s.models.GetOr([])
  }

  /** The mapping is read only while a column is projected, so a schema
      without any column is projected whatever the mapping holds. */
  predicate Projectable(s: DbtSchema, mapping: Value) {
    MappingReadable(mapping) || forall m :: m in ModelsOf(s) ==> ColumnsOf(m) == []
  }

  /** The projection as a function of the inputs alone. */
  function SimpleSchema(s: DbtSchema, mapping: Value): PolicyInput
    requires Projectable(s, mapping)
  {
    var ms := ModelsOf(s);
    PolicyInput(SchemaData(SchemaBody(seq(|ms|, i requires 0 <= i < |ms| => ProjectModel(ms[i], mapping)))))
  }

  /** Builds the projection by appending one record per model and, inside
      it, one record per column, in input order. The result depends on the
      inputs only, so two calls on the same inputs give equal documents. */
  method GenerateSimpleSchema(dbtSchema: DbtSchema, mapping: Value) returns (doc: PolicyInput)
    requires Projectable(dbtSchema, mapping)
    ensures doc == SimpleSchema(dbtSchema, mapping)
  {
    var models: seq<ModelRecord> := [];
    var ms := dbtSchema.models.GetOr([]);
    for i := 0 to |ms|
      invariant |models| == i
      invariant forall k :: 0 <= k < i ==> models[k] == ProjectModel(ms[k], mapping)
    {
      var model := ms[i];
      var columns: seq<ColumnRecord> := [];
      var cs := model.columns.GetOr([]);
      for j := 0 to |cs|
        invariant |columns| == j
        invariant forall k :: 0 <= k < j ==> columns[k] == ProjectColumn(cs[k], mapping)
      {
        var column := cs[j];
        var name := column.name.GetOr(Str(""));
        var meta := match column.meta case Some(m) => m case None => Meta(None);
        var role := meta.columnSecurityRole.GetOr(Null);
        var info: Option<Value> := None;
        if Truthy(mapping) {
          var fields := match Get(mapping.entries, "fields") case Some(f) => f.entries case None => [];
          var found := if name.Str? then Get(fields, name.s) else None;
          var entry := found.GetOr(Dict([]));
          if Truthy(entry) {
            info := Some(entry);
          }
        }
        columns := columns + [ColumnRecord(name, column.description.GetOr(Str("")), role, Truthy(role), info)];
      }
      models := models + [ModelRecord(model.name.GetOr(Str("")), model.description.GetOr(Str("")), columns)];
    }
    doc := PolicyInput(SchemaData(SchemaBody(models)));
  }

  // ---------------------------------------------------------------------
  // Properties of the projection

  /** One record per input model, in input order; no `models` key gives no
      records. */
  lemma SimpleSchemaModels(s: DbtSchema, mapping: Value)
    requires Projectable(s, mapping)
    ensures var out := SimpleSchema(s, mapping).input.schema.models;
      && (s.models.None? ==> out == [])
      && (s.models.Some? ==> |out| == |s.models.value|)
      && forall i :: 0 <= i < |out| ==> out[i] == ProjectModel(s.models.value[i], mapping)
  {
  }

  /** A model record keeps the model's name and description as given, null
      included, and the empty string only for an absent key; and has one column record per declared column, in
      order; a model without columns gets an empty list, not an omission. */
  lemma ProjectModelFields(m: ModelDecl, mapping: Value)
    requires MappingReadable(mapping) || ColumnsOf(m) == []
    ensures var r := ProjectModel(m, mapping);
      && (m.name.Some? ==> r.name == m.name.value)
      && (m.name.None? ==> r.name == Str(""))
      && (m.description.Some? ==> r.description == m.description.value)
      && (m.description.None? ==> r.description == Str(""))
      && (m.columns.None? ==> r.columns == [])
      && (m.columns.Some? ==> |r.columns| == |m.columns.value|)
      && forall j :: 0 <= j < |r.columns| ==> r.columns[j] == ProjectColumn(m.columns.value[j], mapping)
  {
  }

  /** A column record: name and description are kept as given and are the
      empty string only for an absent key; the security role is the
      metadata's, or null when there is no `meta` block or the block has no
      role; the column is sensitive exactly when that role is non-empty. */
  lemma ProjectColumnFields(c: ColumnDecl, mapping: Value)
    requires MappingReadable(mapping)
    ensures var r := ProjectColumn(c, mapping);
      && (c.name.Some? ==> r.name == c.name.value)
      && (c.name.None? ==> r.name == Str(""))
      && (c.description.Some? ==> r.description == c.description.value)
      && (c.description.None? ==> r.description == Str(""))
      && r.securityRole ==
           (if c.meta.Some? && c.meta.value.columnSecurityRole.Some? then c.meta.value.columnSecurityRole.value
            else Null)
      && (r.isSensitive <==>
            c.meta.Some? && c.meta.value.columnSecurityRole.Some? && Truthy(c.meta.value.columnSecurityRole.value))
  {
  }

  /** A column record carries a `mapping` key exactly when a non-empty
      mapping was given whose `fields` holds a non-empty entry under the
      column's name (a string); the key then holds that entry unchanged. */
  lemma MappingAnnotationIff(c: ColumnDecl, mapping: Value)
    requires MappingReadable(mapping)
    ensures var r := ProjectColumn(c, mapping);
      r.mapping.Some? <==>
        && mapping.Dict? && mapping.entries != []
        && Get(mapping.entries, "fields").Some?
        && r.name.Str?
        && Get(Get(mapping.entries, "fields").value.entries, r.name.s).Some?
        && Truthy(Get(Get(mapping.entries, "fields").value.entries, r.name.s).value)
    ensures var r := ProjectColumn(c, mapping);
      r.mapping.Some? ==>
        r.name.Str? && r.mapping.value == Get(Get(mapping.entries, "fields").value.entries, r.name.s).value
  {
  }

  /** A schema that declares no column is projected whatever the mapping
      holds, a malformed one included, and the result is the same as with
      no mapping at all. */
  lemma NoColumnsIgnoresMapping(s: DbtSchema, mapping: Value)
    requires forall m :: m in ModelsOf(s) ==> ColumnsOf(m) == []
    ensures Projectable(s, mapping)
    ensures SimpleSchema(s, mapping) == SimpleSchema(s, Null)
  {
    var ms := ModelsOf(s);
    var out, none := SimpleSchema(s, mapping).input.schema.models, SimpleSchema(s, Null).input.schema.models;
    forall i | 0 <= i < |ms| ensures out[i] == none[i] {
      assert ColumnsOf(ms[i]) == [];
    }
  }

  /** With no mapping, or an empty one, no column of the output has a
      `mapping` key; and in every output column the sensitivity flag agrees
      with the recorded security role. */
  lemma SimpleSchemaColumns(s: DbtSchema, mapping: Value)
    requires Projectable(s, mapping)
    ensures var out := SimpleSchema(s, mapping).input.schema.models;
      forall i, j :: 0 <= i < |out| && 0 <= j < |out[i].columns| ==>
        && (!Truthy(mapping) ==> out[i].columns[j].mapping.None?)
        && (out[i].columns[j].isSensitive <==> Truthy(out[i].columns[j].securityRole))
  {
  }
}
