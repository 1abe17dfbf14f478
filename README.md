# Sensitive-field enforcement: a Dafny model

This project models the two parts of the sensitive-data tooling that decide
whether the columns named sensitive are protected.

- **The enforcement audit.** This is `test_sensitive_fields_masking_policies` in
  `sensitive_mapping/test_dbt_columns.py`, together with the module-level preparation
  of the column audit it reads.
  - The audit rows are first restricted to in-scope rows:
    - not a dbt standard column;
    - the model type is `model`.
  - The skip-validation flag is derived from the column tags.
  - The sensitive-field mapping document is checked for shape. Each entry is then
    reduced to its expected masking policy.
  - The in-scope rows are grouped by column name into an index of occurrences. An
    occurrence is a model and the security role the column carries there.
  - Every mapped column is then judged:
    - a column with no occurrence yields one error;
    - an occurrence without a role (null, NaN or empty) yields an error;
    - an occurrence with another role yields a mismatch;
    - an occurrence with the expected role yields nothing.
  - Errors fail the run. Mismatches only produce an advisory.
- **The schema projector.** This is `generate_simple_schema` in
  `sensitive_mapping/simple_schema_generator.py`. It flattens a dbt schema into the
  document handed to the policy engine:
  - one record per model and per column;
  - each column record carries its security role, a sensitivity flag, and its
    mapping entry when there is one.

Both source routines work by loops that append to lists and to a dictionary, so the
model writes them as methods with loops:

- `ColumnIndex.BuildIndex`
- `EnforcementAudit.CheckOccurrences`
- `EnforcementAudit.Audit`
- `SchemaProjector.GenerateSimpleSchema`

Each of these is proved equal to a pure reference function: `IndexOf`, `AllFindings`
filtered by kind, or `SimpleSchema`. The lemmas state the promised properties about
those functions.

Parsed YAML and JSON values are modelled as `Values.Value`:

- null, booleans, integers, strings, lists, and key-value mappings;
- a mapping is an ordered list of entries, and lookup returns the first entry with
  the key;
- Python truthiness is `Values.Truthy`.

Files:

| file | module | contents |
|---|---|---|
| `values.dfy` | `Values` | `Option`, `Result`, `Value`, truthiness, key lookup |
| `audit_rows.dfy` | `AuditRows` | audit rows, the in-scope filter, the skip flag |
| `sensitive_mapping.dfy` | `SensitiveMapping` | shape check of the mapping document, expected policies |
| `column_index.dfy` | `ColumnIndex` | the column-name index and its construction |
| `enforcement_audit.dfy` | `EnforcementAudit` | findings, the cross-reference loops, the verdict |
| `schema_projector.dfy` | `SchemaProjector` | the projection for the policy engine |

## Model

| member | source | states |
|---|---|---|
| AuditRows.FilterRows | sensitive_mapping/test_dbt_columns.py:50-53 | a row is kept exactly when it is in the input and its column is not one of the 16 dbt standard columns and its model type is `model`; never more rows than the input |
| AuditRows.FilterRowsAppend | sensitive_mapping/test_dbt_columns.py:50-53 | the filter works row by row and keeps row order: filtering a concatenation is the concatenation of the filtered parts |
| AuditRows.FilterRowsKeepsInScope | sensitive_mapping/test_dbt_columns.py:50-53 | when every row is in scope, the filter returns the rows unchanged |
| AuditRows.ContainsAt | sensitive_mapping/test_dbt_columns.py:55-57 | the substring search finds a pattern that occurs at any position |
| AuditRows.ContainsWitness | sensitive_mapping/test_dbt_columns.py:55-57 | a successful substring search has an occurrence position |
| AuditRows.SkipNamingValidationIff | sensitive_mapping/test_dbt_columns.py:55-57 | the skip flag is set exactly when the row has tags and `skip_test` or `skip_naming_validation` occurs in them; missing tags count as empty, so those rows are never skipped |
| SensitiveMapping.PolicyList | sensitive_mapping/test_dbt_columns.py:109-110 | one pair per mapping entry, in order: the column name and the entry's `mask_policy`, or null when the entry has none |
| SensitiveMapping.ReadPolicies | sensitive_mapping/test_dbt_columns.py:102-110 | fails with `NotAMapping` exactly when the document is not a mapping; fails with `MissingFields` exactly when it is a mapping without `fields`; otherwise returns, per `fields` entry and in order, the column and its expected policy |
| ColumnIndex.OccurrencesOfSnoc | sensitive_mapping/test_dbt_columns.py:118-122 | appending a row extends the occurrence list of that row's column by its occurrence, and no other list |
| ColumnIndex.IndexOfSnoc | sensitive_mapping/test_dbt_columns.py:117-122 | appending a row updates the index only at the row's column |
| ColumnIndex.BuildIndex | sensitive_mapping/test_dbt_columns.py:116-122 | the loop builds the reference index: every column of the rows maps to its occurrences (model, role) in row order |
| ColumnIndex.IndexKeys | sensitive_mapping/test_dbt_columns.py:117-122 | a column is a key exactly when some row carries it, and every list in the index is non-empty |
| ColumnIndex.OccurrenceOfRow | sensitive_mapping/test_dbt_columns.py:118-122 | every row's occurrence appears in its column's list |
| ColumnIndex.OccurrencesOfMembers | sensitive_mapping/test_dbt_columns.py:118-122 | a column's list holds exactly the occurrences of the rows carrying that column |
| ColumnIndex.OccurrencesOfAbsent | sensitive_mapping/test_dbt_columns.py:117-122 | a column that no row carries has no occurrences |
| ColumnIndex.ColumnOrderKeys | sensitive_mapping/test_dbt_columns.py:117-122 | the index's key order, which is the order of first appearance, lists every column of the rows exactly once |
| ColumnIndex.IndexCoversEveryRowOnce | sensitive_mapping/test_dbt_columns.py:117-122 | summed over all keys, the lists are exactly as long as the rows: each row lands in exactly one list |
| EnforcementAudit.CheckOccurrences | sensitive_mapping/test_dbt_columns.py:146-173 | the inner loop appends, in order: one error for each occurrence without a role, and one mismatch for each occurrence whose role is not the expected policy |
| EnforcementAudit.Audit | sensitive_mapping/test_dbt_columns.py:124-173 | the cross-reference loop returns exactly the errors and the mismatches of the findings of the whole mapping, in mapping order and then occurrence order |
| EnforcementAudit.TestSensitiveFieldsMaskingPolicies | sensitive_mapping/test_dbt_columns.py:82-218 | a configuration error is returned before anything else. Otherwise it returns the errors and mismatches over the index of the in-scope rows. The run fails exactly when there is an error, which is exactly when some mapped column has no in-scope row or has one without a role. It passes with an advisory exactly when there are mismatches and no error |
| EnforcementAudit.MissingColumnFindings | sensitive_mapping/test_dbt_columns.py:130-144 | a mapped column that occurs nowhere yields exactly one error, with no model and no actual policy, and no mismatch |
| EnforcementAudit.OccurrenceOutcome | sensitive_mapping/test_dbt_columns.py:147-173 | an occurrence yields an error reporting `None` when it has no role; a mismatch carrying its role when that role is not the expected policy; and nothing only when its role equals the expected policy |
| EnforcementAudit.OccurrenceKinds | sensitive_mapping/test_dbt_columns.py:151-173 | a single occurrence never yields both an error and a mismatch |
| EnforcementAudit.OccurrencesStep | sensitive_mapping/test_dbt_columns.py:147-173 | one more occurrence appends at most one error and at most one mismatch, as judged on that occurrence alone |
| EnforcementAudit.AllFindingsAppend | sensitive_mapping/test_dbt_columns.py:129-173 | the findings of a mapping split in two are the findings of the first part followed by those of the second |
| EnforcementAudit.AuditStep | sensitive_mapping/test_dbt_columns.py:129-173 | one more mapping entry appends exactly the errors and the mismatches of its own column |
| EnforcementAudit.ColumnFindingCounts | sensitive_mapping/test_dbt_columns.py:146-173 | for a column that occurs: the errors number the occurrences without a role; the mismatches number those with another role; there are no other findings |
| EnforcementAudit.FindingsOnlyForMappedColumns | sensitive_mapping/test_dbt_columns.py:129-173 | every finding names a mapped column and carries that entry's expected policy; unmapped columns never produce findings |
| EnforcementAudit.ColumnErrorsIff | sensitive_mapping/test_dbt_columns.py:130-162 | a mapping entry yields an error exactly when its column occurs nowhere or some occurrence has no role |
| EnforcementAudit.RunFailsIff | sensitive_mapping/test_dbt_columns.py:204-218 | the errors are non-empty, so the run fails, exactly when some mapped column is unenforced; mismatches have no say |
| EnforcementAudit.RunFailsIffOnRows | sensitive_mapping/test_dbt_columns.py:50-218 | the same, stated on the raw audit rows: the run fails exactly when some mapped column has no in-scope row, or has an in-scope row whose role is null or empty |
| EnforcementAudit.LookupIndexOf | sensitive_mapping/test_dbt_columns.py:130 | looking a column up in the index gives its occurrences; a missing key gives none |
| EnforcementAudit.UnenforcedOnRows | sensitive_mapping/test_dbt_columns.py:50-162 | a column is unenforced in the index of the filtered rows exactly when no in-scope row carries it, or an in-scope row carrying it has no role |
| SchemaProjector.GenerateSimpleSchema | sensitive_mapping/simple_schema_generator.py:25-60 | the nested loops build exactly the reference projection of the schema under the mapping |
| SchemaProjector.SimpleSchemaModels | sensitive_mapping/simple_schema_generator.py:28-60 | one model record per input model, in input order, wrapped in `input.schema.models`; a schema without `models` gives no records |
| SchemaProjector.ProjectModelFields | sensitive_mapping/simple_schema_generator.py:34-41 | a model record keeps the name and description as given (null included), with the empty string only for an absent key, and has one column record per declared column in order; a model without columns gets an empty list |
| SchemaProjector.ProjectColumnFields | sensitive_mapping/simple_schema_generator.py:41-47 | a column record keeps the name and description as given (null included), with the empty string only for an absent key; its security role is the metadata's role, or null when there is no `meta` block or the block has no role; it is sensitive exactly when that role is present and non-empty |
| SchemaProjector.MappingAnnotationIff | sensitive_mapping/simple_schema_generator.py:49-53 | a column record gets a `mapping` key exactly when the mapping is non-empty and its `fields` has a non-empty entry under the column's name, which must be a string; the key then holds that entry unchanged |
| SchemaProjector.SimpleSchemaColumns | sensitive_mapping/simple_schema_generator.py:45-53 | with no mapping, or an empty one, no output column has a `mapping` key; in every output column the sensitivity flag agrees with the truthiness of the recorded role |
| SchemaProjector.NoColumnsIgnoresMapping | sensitive_mapping/simple_schema_generator.py:34-57 | a schema declaring no column is projected for any mapping, a malformed one included, and the result equals the projection with no mapping |

## Left out

- Environment and file input are not modelled:
  - the audit path and the `sys.exit(0)` when it is missing;
  - the `FileNotFoundError` for a missing mapping file;
  - YAML and CSV loading.
  - The audit rows and the mapping document are parameters instead.
- The `load_dbt_schema`, `load_mapping`, `save_schema` and `main` functions of the
  projector's file are not modelled. They are file I/O and printing.
- The reference tables read at module level are not modelled:
  - the quotes file;
  - the suffix, access-policy, PII-type and sensitive-data-type CSVs;
  - the column-name split at lines 74-77.
  - These only serve the naming tests, which are not part of this model.
- Report rendering is not modelled:
  - the warning text of each finding;
  - the coloured tables;
  - `warnings.warn`;
  - the failing `assert`.
  - The outcome is the `Verdict` (`Pass`, `PassWithAdvisory` or `Fail`), with the two
    finding lists.
- NaN roles are not modelled separately. A NaN security role is folded into `None`,
  so an error for it reports `"None"`. The source reports such an error with the
  NaN value itself, because NaN is truthy in `actual_policy or 'None'`.
- Floating-point, date and timestamp values are not modelled. `Values.Value` has
  none of them. No parsed value can hold one, so none of the following can be a
  float, a date or a timestamp in the model:
  - an expected policy;
  - a model or column `name` or `description`;
  - a `column_security_role`. For example, a role of `1.5` would make the source
    mark the column sensitive.
  - a mapping entry.
- Audit cells are assumed to be strings. Model names, column names, roles, model types
  and tags read from the audit are modelled as strings.
- AuditRows.SkipNamingValidation treats `str.contains` as plain substring search. The
  two patterns contain no regular-expression metacharacters, so this is exact for
  them.
- Mapping keys are assumed to be distinct strings. Lookup returns the first entry
  with a key. A document with a repeated key is outside the model:
  - the YAML loader keeps the last value;
  - `SensitiveMapping.PolicyList` would list the column twice, and so report its
    findings twice.
- SensitiveMapping.ReadPolicies has a precondition. When `fields` is present, it and
  each of its entries must be a mapping. Anything else makes the source raise an
  `AttributeError`, which is not modelled.
- SchemaProjector.GenerateSimpleSchema has a precondition, `Projectable`. It
  applies only when the schema declares at least one column: a non-empty mapping
  must then be a mapping whose `fields`, when present, is a mapping. The source
  reads the mapping only while it projects a column, and otherwise raises exactly
  there. `SchemaProjector.NoColumnsIgnoresMapping` covers a schema without columns,
  which is projected whatever the mapping holds.
- The schema types exclude shapes on which the source raises:
  - a model or column entry that is not a mapping;
  - a `meta` that is not a mapping, null included;
  - an explicit null `models` or `columns`.
- SchemaProjector.MappingAnnotation finds no entry for a column name that is not a
  string, because the mapping's keys are strings. The source raises a `TypeError`
  for a name that is a list or a mapping, when a non-empty mapping is given. The
  model gives no `mapping` key instead.
- Order versus set semantics: the findings are produced in mapping order. The
  verdict does not depend on that order (`RunFailsIff` states it over all entries),
  but the finding lists do.
