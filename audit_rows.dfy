/** The column audit as it reaches the checks: one row per column per model,
    restricted to the columns the checks apply to (the module
    level of test_dbt_columns.py, lines 30-57). */
module AuditRows {
  import opened Values

  /** One row of the column audit. A role that is null or NaN in the table is
      `None`; a missing model type or missing tags are `""` and `None`. */
  datatype AuditRow = AuditRow(
    modelName: string,
    columnName: string,
    columnSecurityRole: Option<string>,
    modelType: string,
    columnTags: Option<string>)

  /** dbt's own bookkeeping columns, exempt from every column check. */
  const StandardColumns: seq<string> := [
    "dbt_scd_id", "dbt_updated_at", "dbt_valid_from", "dbt_valid_to",
    "value_var", "dcr_desc", "id", "value",
    "metadata_filename", "metadata_file_last_modified", "metadata_file_row_number",
    "_dbt_copied_at", "bus_eff_ts", "bus_exp_ts", "record_id", "sys_upd_ts"
  ]

  /** A row is checked when its column is not a standard column and it
      belongs to a model (external tables are excluded). */
  predicate InScope(r: AuditRow) {
    r.columnName !in StandardColumns && r.modelType == "model"
  }

  /** The boolean row filter: keeps exactly the in-scope rows, in order. */
  function FilterRows(rows: seq<AuditRow>): (kept: seq<AuditRow>)
    ensures |kept| <= |rows|
    ensures forall r :: r in kept <==> r in rows && InScope(r)
  {
    if rows == [] then []
    else (if InScope(rows[0]) then [rows[0]] else []) + FilterRows(rows[1..])
  }

  /** Filtering a concatenation filters each part and keeps them in order:
      the filter never reorders rows. */
  lemma {:induction false} FilterRowsAppend(a: seq<AuditRow>, b: seq<AuditRow>)
    ensures FilterRows(a + b) == FilterRows(a) + FilterRows(b)
  {
    if a == [] {
      assert a + b == b;
    } else {
      assert (a + b)[0] == a[0];
      assert (a + b)[1..] == a[1..] + b;
      FilterRowsAppend(a[1..], b);
    }
  }

  /** When every row is in scope the filter changes nothing. */
  lemma {:induction false} FilterRowsKeepsInScope(rows: seq<AuditRow>)
    requires forall i :: 0 <= i < |rows| ==> InScope(rows[i])
    ensures FilterRows(rows) == rows
  {
    if rows != [] {
      FilterRowsKeepsInScope(rows[1..]);
    }
  }

  /** `needle` is a prefix of `s`. */
  predicate StartsWith(s: string, needle: string) {
    |needle| <= |s| && s[..|needle|] == needle
  }

  /** Substring search, as `str.contains` does for a pattern without regular
      expression metacharacters. */
  predicate Contains(s: string, needle: string)
    decreases |s|
  {
    StartsWith(s, needle) || (s != [] && Contains(s[1..], needle))
  }

  /** `needle` occurs in `s` starting at index `i`. */
  ghost predicate OccursAt(s: string, needle: string, i: nat) {
    i + |needle| <= |s| && s[i..i + |needle|] == needle
  }

  /** The derived `skip_naming_validation` column: missing tags count as the
      empty string; the flag is set by either skip tag. */
  predicate SkipNamingValidation(r: AuditRow) {
    var tags := r.columnTags.GetOr("");
    Contains(tags, "skip_test") || Contains(tags, "skip_naming_validation")
  }

  /** Soundness of the search: an occurrence at any index is found. */
  lemma {:induction false} ContainsAt(s: string, needle: string, i: nat)
    requires OccursAt(s, needle, i)
    ensures Contains(s, needle)
    decreases i
  {
    if i == 0 {
      assert s[..|needle|] == s[0..|needle|];
    } else {
      assert s[1..][i - 1..i - 1 + |needle|] == s[i..i + |needle|];
      ContainsAt(s[1..], needle, i - 1);
    }
  }

  /** Completeness of the search: when it succeeds there is an occurrence. */
  lemma {:induction false} ContainsWitness(s: string, needle: string) returns (i: nat)
    requires Contains(s, needle)
    ensures OccursAt(s, needle, i)
    decreases |s|
  {
    if StartsWith(s, needle) {
      i := 0;
      assert s[0..|needle|] == s[..|needle|];
    } else {
      var j := ContainsWitness(s[1..], needle);
      i := j + 1;
      assert s[1..][j..j + |needle|] == s[i..i + |needle|];
    }
  }

  /** The skip flag is set exactly when one of the two skip tags occurs in
      the tags; rows without tags are never skipped. */
  lemma SkipNamingValidationIff(r: AuditRow)
    ensures SkipNamingValidation(r) <==>
      r.columnTags.Some? &&
      ((exists i: nat :: OccursAt(r.columnTags.value, "skip_test", i)) ||
       (exists i: nat :: OccursAt(r.columnTags.value, "skip_naming_validation", i)))
  {
    var tags := r.columnTags.GetOr("");
    if r.columnTags.None? {
      assert !StartsWith(tags, "skip_test") && !StartsWith(tags, "skip_naming_validation");
    }
    if Contains(tags, "skip_test") {
      var i := ContainsWitness(tags, "skip_test");
    }
    if Contains(tags, "skip_naming_validation") {
      var i := ContainsWitness(tags, "skip_naming_validation");
    }
    if r.columnTags.Some? {
      if i: nat :| OccursAt(tags, "skip_test", i) {
        ContainsAt(tags, "skip_test", i);
      }
      if i: nat :| OccursAt(tags, "skip_naming_validation", i) {
        ContainsAt(tags, "skip_naming_validation", i);
      }
    }
  }
}
