/** The sensitive-field mapping document as the enforcement audit reads it
    (test_dbt_columns.py:102-110): a shape check, then the reduction of every
    entry under `fields` to its expected masking policy. */
module SensitiveMapping {
  import opened Values

  /** Configuration errors, raised before any cross-referencing. */
  datatype ConfigError =
    | NotAMapping      // the document's top level is not a key-value mapping
    | MissingFields    // the document has no `fields` key

  /** What the source relies on without checking: when the document is a
      mapping with a `fields` key, that value is itself a mapping whose every
      entry is a mapping (anything else makes `.items()` or `.get` raise). */
  predicate FieldsAreMappings(doc: Value) {
    doc.Dict? && Get(doc.entries, "fields").Some? ==>
      var fields := Get(doc.entries, "fields").value;
      fields.Dict? && forall e :: e in fields.entries ==> e.1.Dict?
  }

  /** `attrs.get('mask_policy')`: the expected policy of one entry, `Null`
      when the entry has none. */
  function ExpectedPolicy(attrs: Value): Value
    requires attrs.Dict?
  {
    Get(attrs.entries, "mask_policy").GetOr(Null)
  }

  /** The comprehension `{col: attrs.get('mask_policy') ...}`, in mapping order. */
  function PolicyList(fields: seq<(string, Value)>): (ps: seq<(string, Value)>)
    requires forall e :: e in fields ==> e.1.Dict?
    ensures |ps| == |fields|
    ensures forall i :: 0 <= i < |fields| ==>
      ps[i].0 == fields[i].0 && ps[i].1 == ExpectedPolicy(fields[i].1)
  {
    if fields == [] then []
    else [(fields[0].0, ExpectedPolicy(fields[0].1))] + PolicyList(fields[1..])
  }

  /** The shape check followed by the reduction to expected policies. */
  function ReadPolicies(doc: Value): (r: Result<seq<(string, Value)>, ConfigError>)
    requires FieldsAreMappings(doc)
    ensures r == Failure(NotAMapping) <==> !doc.Dict?
    ensures r == Failure(MissingFields) <==> doc.Dict? && "fields" !in Keys(doc.entries)
    ensures r.Success? ==>
      var fields := Get(doc.entries, "fields").value.entries;
      |r.value| == |fields| &&
      forall i :: 0 <= i < |fields| ==>
        r.value[i] == (fields[i].0, Get(fields[i].1.entries, "mask_policy").GetOr(Null))
  {
    if !doc.Dict? then Failure(NotAMapping)
    else match Get(doc.entries, "fields")
      case None => Failure(MissingFields)
      case Some(fields) => Success(PolicyList(fields.entries))
  }
}
