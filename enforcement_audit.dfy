/** The enforcement audit of test_sensitive_fields_masking_policies
    (test_dbt_columns.py:82-218): every column the mapping declares sensitive
    is looked up in the column index, and each of its occurrences is judged
    against the expected masking policy. Errors fail the run; mismatches only
    produce an advisory. */
module EnforcementAudit {
  import opened Values
  import opened AuditRows
  import opened SensitiveMapping
  import opened ColumnIndex

  datatype Kind =
    | EnforcementError     // fails the run
    | EnforcementMismatch  // reported, never fails the run

  /** One finding; `modelName` is `None` for a column absent from the audit,
      `actualPolicy` is `None` there and `Some("None")` for an occurrence
      without a role. */
  datatype Finding = Finding(
    kind: Kind,
    modelName: Option<string>,
    columnName: string,
    expectedPolicy: Value,
    actualPolicy: Option<string>)

  /** Outcome of a whole run. `PassWithAdvisory` is a pass whose only
      findings are mismatches. */
  datatype Verdict = Pass | PassWithAdvisory | Fail

  /** The findings of a run and its verdict. The mismatch advisory is
      emitted whenever `mismatches != []`, before the verdict is reached, so
      a failing run with mismatches warns as well. */
  datatype Report = Report(errors: seq<Finding>, mismatches: seq<Finding>, verdict: Verdict)

  /** An occurrence carries no role: null, NaN or the empty string. */
  predicate Unprotected(o: Occurrence) {
    o.columnSecurityRole.None? || o.columnSecurityRole.value == ""
  }

  /** An occurrence carries a role that is not the expected policy. Python's
      `!=` between a string and any non-string value (a missing policy
      included) is true. */
  predicate Differs(o: Occurrence, expected: Value) {
    !Unprotected(o) && Str(o.columnSecurityRole.value) != expected
  }

  /** `dbt_columns.get(col)`, with a missing key read as no occurrences. */
  function Lookup(index: map<string, seq<Occurrence>>, col: string): seq<Occurrence> {
    if col in index then index[col] else []
  }

  /** The findings of one occurrence of a mapped column. */
  function OccurrenceFindings(col: string, expected: Value, o: Occurrence): seq<Finding> {
    if Unprotected(o) then
      [Finding(EnforcementError, Some(o.modelName), col, expected, Some("None"))]
    else if Str(o.columnSecurityRole.value) != expected then
      [Finding(EnforcementMismatch, Some(o.modelName), col, expected, o.columnSecurityRole)]
    else []
  }

  /** The findings of a list of occurrences, in occurrence order. */
  function OccurrencesFindings(col: string, expected: Value, occs: seq<Occurrence>): seq<Finding>
    decreases |occs|
  {
    if occs == [] then []
    else OccurrenceFindings(col, expected, occs[0]) + OccurrencesFindings(col, expected, occs[1..])
  }

  /** The findings of one mapping entry: a single model-less error when the
      column occurs nowhere, otherwise one verdict per occurrence. */
  function ColumnFindings(col: string, expected: Value, occs: seq<Occurrence>): seq<Finding> {
    if occs == [] then [Finding(EnforcementError, None, col, expected, None)]
    else OccurrencesFindings(col, expected, occs)
  }

  /** The findings of the whole mapping, in mapping order. */
  function AllFindings(policies: seq<(string, Value)>, index: map<string, seq<Occurrence>>): seq<Finding>
    decreases |policies|
  {
    if policies == [] then []
    else
      ColumnFindings(policies[0].0, policies[0].1, Lookup(index, policies[0].0))
        + AllFindings(policies[1..], index)
  }

  /** The findings of one kind, in order. */
  function OfKind(fs: seq<Finding>, k: Kind): seq<Finding> {
    if fs == [] then []
    else (if fs[0].kind == k then [fs[0]] else []) + OfKind(fs[1..], k)
  }

  /** Mismatches only ever warn; any error fails the run. */
  function Decide(errors: seq<Finding>, mismatches: seq<Finding>): Verdict {
    if errors != [] then Fail
    else if mismatches != [] then PassWithAdvisory
    else Pass
  }

  lemma {:induction false} OfKindAppend(a: seq<Finding>, b: seq<Finding>, k: Kind)
    ensures OfKind(a + b, k) == OfKind(a, k) + OfKind(b, k)
  {
    if a == [] {
      assert a + b == b;
    } else {
      assert (a + b)[1..] == a[1..] + b;
      OfKindAppend(a[1..], b, k);
    }
  }

  /** The errors and mismatches of a single occurrence. */
  lemma OccurrenceKinds(col: string, expected: Value, o: Occurrence)
    ensures OfKind(OccurrenceFindings(col, expected, o), EnforcementError) ==
      if Unprotected(o) then [Finding(EnforcementError, Some(o.modelName), col, expected, Some("None"))] else []
    ensures OfKind(OccurrenceFindings(col, expected, o), EnforcementMismatch) ==
      if Differs(o, expected) then [Finding(EnforcementMismatch, Some(o.modelName), col, expected, o.columnSecurityRole)] else []
  {
    var fs := OccurrenceFindings(col, expected, o);
    if fs != [] {
      assert fs[1..] == [];
    }
  }

  lemma {:induction false} OccurrencesFindingsSnoc(col: string, expected: Value, occs: seq<Occurrence>, o: Occurrence)
    ensures OccurrencesFindings(col, expected, occs + [o]) ==
      OccurrencesFindings(col, expected, occs) + OccurrenceFindings(col, expected, o)
  {
    if occs == [] {
      assert occs + [o] == [o];
      assert OccurrencesFindings(col, expected, [o]) ==
        OccurrenceFindings(col, expected, o) + OccurrencesFindings(col, expected, []);
    } else {
      assert (occs + [o])[1..] == occs[1..] + [o];
      OccurrencesFindingsSnoc(col, expected, occs[1..], o);
      var a, b, c := OccurrenceFindings(col, expected, occs[0]),
        OccurrencesFindings(col, expected, occs[1..]), OccurrenceFindings(col, expected, o);
      assert a + (b + c) == (a + b) + c;
    }
  }

  /** One more occurrence appends at most one error or one mismatch. */
  lemma OccurrencesStep(col: string, expected: Value, occs: seq<Occurrence>, o: Occurrence)
    ensures OfKind(OccurrencesFindings(col, expected, occs + [o]), EnforcementError) ==
      OfKind(OccurrencesFindings(col, expected, occs), EnforcementError) +
      (if Unprotected(o) then [Finding(EnforcementError, Some(o.modelName), col, expected, Some("None"))] else [])
    ensures OfKind(OccurrencesFindings(col, expected, occs + [o]), EnforcementMismatch) ==
      OfKind(OccurrencesFindings(col, expected, occs), EnforcementMismatch) +
      (if Differs(o, expected) then [Finding(EnforcementMismatch, Some(o.modelName), col, expected, o.columnSecurityRole)] else [])
  {
    OccurrencesFindingsSnoc(col, expected, occs, o);
    OccurrenceKinds(col, expected, o);
    OfKindAppend(OccurrencesFindings(col, expected, occs), OccurrenceFindings(col, expected, o), EnforcementError);
    OfKindAppend(OccurrencesFindings(col, expected, occs), OccurrenceFindings(col, expected, o), EnforcementMismatch);
  }

  /** Findings follow the mapping: those of a concatenation are those of its
      first part followed by those of its second part. */
  lemma {:induction false} AllFindingsAppend(ps: seq<(string, Value)>, qs: seq<(string, Value)>,
                                             index: map<string, seq<Occurrence>>)
    ensures AllFindings(ps + qs, index) == AllFindings(ps, index) + AllFindings(qs, index)
  {
    if ps == [] {
      assert ps + qs == qs;
    } else {
      assert (ps + qs)[1..] == ps[1..] + qs;
      AllFindingsAppend(ps[1..], qs, index);
      var a, b, c := ColumnFindings(ps[0].0, ps[0].1, Lookup(index, ps[0].0)),
        AllFindings(ps[1..], index), AllFindings(qs, index);
      assert a + (b + c) == (a + b) + c;
    }
  }

  lemma AllFindingsSnoc(ps: seq<(string, Value)>, p: (string, Value), index: map<string, seq<Occurrence>>)
    ensures AllFindings(ps + [p], index) ==
      AllFindings(ps, index) + ColumnFindings(p.0, p.1, Lookup(index, p.0))
  {
    AllFindingsAppend(ps, [p], index);
    assert AllFindings([p], index) == ColumnFindings(p.0, p.1, Lookup(index, p.0)) + AllFindings([], index);
  }

  /** One more mapping entry appends the errors and mismatches of its column. */
  lemma AuditStep(ps: seq<(string, Value)>, p: (string, Value), index: map<string, seq<Occurrence>>)
    ensures forall k ::
      OfKind(AllFindings(ps + [p], index), k) ==
      OfKind(AllFindings(ps, index), k) + OfKind(ColumnFindings(p.0, p.1, Lookup(index, p.0)), k)
  {
    AllFindingsSnoc(ps, p, index);
    forall k {
      OfKindAppend(AllFindings(ps, index), ColumnFindings(p.0, p.1, Lookup(index, p.0)), k);
    }
  }

  /** The inner loop over the appearances of one mapped column: each
      appearance without a role appends an error, each with another role
      appends a mismatch, in appearance order. */
  method CheckOccurrences(col: string, expected: Value, infos: seq<Occurrence>,
                          errors0: seq<Finding>, mismatches0: seq<Finding>)
    returns (errors: seq<Finding>, mismatches: seq<Finding>)
    ensures errors == errors0 + OfKind(OccurrencesFindings(col, expected, infos), EnforcementError)
    ensures mismatches == mismatches0 + OfKind(OccurrencesFindings(col, expected, infos), EnforcementMismatch)
  {
    errors, mismatches := errors0, mismatches0;
    for j := 0 to |infos|
      invariant errors == errors0 + OfKind(OccurrencesFindings(col, expected, infos[..j]), EnforcementError)
      invariant mismatches == mismatches0 + OfKind(OccurrencesFindings(col, expected, infos[..j]), EnforcementMismatch)
    {
      var modelName := infos[j].modelName;
      var actual := infos[j].columnSecurityRole;
      assert infos[..j + 1] == infos[..j] + [infos[j]];
      OccurrencesStep(col, expected, infos[..j], infos[j]);
      if actual.None? || actual.value == "" {
        errors := errors + [Finding(EnforcementError, Some(modelName), col, expected, Some("None"))];
      } else if Str(actual.value) != expected {
        mismatches := mismatches + [Finding(EnforcementMismatch, Some(modelName), col, expected, actual)];
      }
    }
    assert infos[..|infos|] == infos;
  }

  /** The cross-reference pass: for each mapping entry in order, a missing
      column yields one error; otherwise each occurrence in order yields an
      error (no role), a mismatch (another role) or nothing (the expected
      role). The two lists are the errors and the mismatches of the findings
      of the whole mapping, in order. */
  method Audit(policies: seq<(string, Value)>, index: map<string, seq<Occurrence>>)
    returns (errors: seq<Finding>, mismatches: seq<Finding>)
    ensures errors == OfKind(AllFindings(policies, index), EnforcementError)
    ensures mismatches == OfKind(AllFindings(policies, index), EnforcementMismatch)
  {
    errors, mismatches := [], [];
    for i := 0 to |policies|
      invariant errors == OfKind(AllFindings(policies[..i], index), EnforcementError)
      invariant mismatches == OfKind(AllFindings(policies[..i], index), EnforcementMismatch)
    {
      var col, expected := policies[i].0, policies[i].1;
      ghost var before := AllFindings(policies[..i], index);
      var infos := if col in index then index[col] else [];
      if infos == [] {
        MissingColumnFindings(col, expected);
        errors := errors + [Finding(EnforcementError, None, col, expected, None)];
      } else {
        errors, mismatches := CheckOccurrences(col, expected, infos, errors, mismatches);
      }
      assert policies[..i + 1] == policies[..i] + [policies[i]];
      AuditStep(policies[..i], policies[i], index);
    }
    assert policies[..|policies|] == policies;
  }

  /** The whole check: the shape of the mapping document first (a
      configuration error stops everything), then the filtered audit is
      indexed and cross-referenced, and the run fails exactly when there is
      at least one error. */
  method TestSensitiveFieldsMaskingPolicies(mappingDoc: Value, auditRows: seq<AuditRow>)
    returns (r: Result<Report, ConfigError>)
    requires FieldsAreMappings(mappingDoc)
    ensures ReadPolicies(mappingDoc).Failure? ==> r == Failure(ReadPolicies(mappingDoc).error)
    ensures ReadPolicies(mappingDoc).Success? ==> (
      var ps := ReadPolicies(mappingDoc).value;
      var fs := AllFindings(ps, IndexOf(FilterRows(auditRows)));
      && r.Success?
      && r.value.errors == OfKind(fs, EnforcementError)
      && r.value.mismatches == OfKind(fs, EnforcementMismatch)
      && (r.value.verdict == Fail <==> r.value.errors != [])
      && (r.value.verdict == Fail <==> exists i :: 0 <= i < |ps| && UnenforcedInRows(auditRows, ps[i].0))
      && (r.value.verdict == PassWithAdvisory <==> r.value.errors == [] && r.value.mismatches != []))
  {
    var policies := ReadPolicies(mappingDoc);
    if policies.Failure? {
      return Failure(policies.error);
    }
    var index := BuildIndex(FilterRows(auditRows));
    var errors, mismatches := Audit(policies.value, index);
    RunFailsIffOnRows(policies.value, auditRows);
    r := Success(Report(errors, mismatches, Decide(errors, mismatches)));
  }

  // ---------------------------------------------------------------------
  // Properties of the findings

  /** A mapped column that occurs nowhere yields exactly one error, without
      a model or an actual policy, and no mismatch. */
  lemma MissingColumnFindings(col: string, expected: Value)
    ensures OfKind(ColumnFindings(col, expected, []), EnforcementError)
      == [Finding(EnforcementError, None, col, expected, None)]
    ensures OfKind(ColumnFindings(col, expected, []), EnforcementMismatch) == []
  {
  }

  /** Each occurrence yields at most one finding, never both kinds: an error
      reporting "None" when it has no role, a mismatch carrying its role
      when that differs from the expected policy, nothing when it conforms. */
  lemma OccurrenceOutcome(col: string, expected: Value, o: Occurrence)
    ensures Unprotected(o) ==>
      OccurrenceFindings(col, expected, o) ==
      [Finding(EnforcementError, Some(o.modelName), col, expected, Some("None"))]
    ensures Differs(o, expected) ==>
      OccurrenceFindings(col, expected, o) ==
      [Finding(EnforcementMismatch, Some(o.modelName), col, expected, o.columnSecurityRole)]
    ensures !Unprotected(o) && !Differs(o, expected) ==>
      o.columnSecurityRole == Some(expected.s) && OccurrenceFindings(col, expected, o) == []
  {
  }

  function CountUnprotected(occs: seq<Occurrence>): nat {
    if occs == [] then 0
    else (if Unprotected(occs[0]) then 1 else 0) + CountUnprotected(occs[1..])
  }

  function CountDiffering(occs: seq<Occurrence>, expected: Value): nat {
    if occs == [] then 0
    else (if Differs(occs[0], expected) then 1 else 0) + CountDiffering(occs[1..], expected)
  }

  /** For a mapped column that occurs, the errors are as many as the
      occurrences without a role, the mismatches as many as those with
      another role, and there are no other findings. */
  lemma ColumnFindingCounts(col: string, expected: Value, occs: seq<Occurrence>)
    requires occs != []
    ensures |OfKind(ColumnFindings(col, expected, occs), EnforcementError)| == CountUnprotected(occs)
    ensures |OfKind(ColumnFindings(col, expected, occs), EnforcementMismatch)| == CountDiffering(occs, expected)
    ensures |ColumnFindings(col, expected, occs)| == CountUnprotected(occs) + CountDiffering(occs, expected)
  {
    OccurrencesFindingCounts(col, expected, occs);
  }

  lemma {:induction false} OccurrencesFindingCounts(col: string, expected: Value, occs: seq<Occurrence>)
    ensures |OfKind(OccurrencesFindings(col, expected, occs), EnforcementError)| == CountUnprotected(occs)
    ensures |OfKind(OccurrencesFindings(col, expected, occs), EnforcementMismatch)| == CountDiffering(occs, expected)
    ensures |OccurrencesFindings(col, expected, occs)| == CountUnprotected(occs) + CountDiffering(occs, expected)
  {
    if occs != [] {
      OccurrencesFindingCounts(col, expected, occs[1..]);
      OccurrenceKinds(col, expected, occs[0]);
      var head, rest := OccurrenceFindings(col, expected, occs[0]), OccurrencesFindings(col, expected, occs[1..]);
      OfKindAppend(head, rest, EnforcementError);
      OfKindAppend(head, rest, EnforcementMismatch);
    }
  }

  /** Columns outside the mapping never produce findings, and every finding
      carries the expected policy of its column's entry. */
  lemma {:induction false} FindingsOnlyForMappedColumns(ps: seq<(string, Value)>,
                                                        index: map<string, seq<Occurrence>>, f: Finding)
    requires f in AllFindings(ps, index)
    ensures (f.columnName, f.expectedPolicy) in ps
  {
    var head := ColumnFindings(ps[0].0, ps[0].1, Lookup(index, ps[0].0));
    if f in head {
      ColumnFindingsName(ps[0].0, ps[0].1, Lookup(index, ps[0].0), f);
    } else {
      FindingsOnlyForMappedColumns(ps[1..], index, f);
      assert ps == [ps[0]] + ps[1..];
    }
  }

  lemma ColumnFindingsName(col: string, expected: Value, occs: seq<Occurrence>, f: Finding)
    requires f in ColumnFindings(col, expected, occs)
    ensures f.columnName == col && f.expectedPolicy == expected
  {
    if occs != [] {
      OccurrencesFindingsName(col, expected, occs, f);
    }
  }

  lemma {:induction false} OccurrencesFindingsName(col: string, expected: Value, occs: seq<Occurrence>, f: Finding)
    requires f in OccurrencesFindings(col, expected, occs)
    ensures f.columnName == col && f.expectedPolicy == expected
  {
    if f !in OccurrenceFindings(col, expected, occs[0]) {
      OccurrencesFindingsName(col, expected, occs[1..], f);
    }
  }

  /** The column of a mapping entry is not enforced: it occurs nowhere, or
      some occurrence has no role. */
  predicate Unenforced(occs: seq<Occurrence>) {
    occs == [] || exists o :: o in occs && Unprotected(o)
  }

  lemma {:induction false} OccurrencesErrorsIff(col: string, expected: Value, occs: seq<Occurrence>)
    ensures OfKind(OccurrencesFindings(col, expected, occs), EnforcementError) != []
      <==> exists o :: o in occs && Unprotected(o)
  {
    if occs != [] {
      OccurrencesErrorsIff(col, expected, occs[1..]);
      OccurrenceKinds(col, expected, occs[0]);
      OfKindAppend(OccurrenceFindings(col, expected, occs[0]),
                   OccurrencesFindings(col, expected, occs[1..]), EnforcementError);
      assert forall o :: o in occs <==> o == occs[0] || o in occs[1..];
    }
  }

  /** A mapping entry yields an error exactly when its column is not
      enforced. */
  lemma ColumnErrorsIff(col: string, expected: Value, occs: seq<Occurrence>)
    ensures OfKind(ColumnFindings(col, expected, occs), EnforcementError) != [] <==> Unenforced(occs)
  {
    if occs != [] {
      OccurrencesErrorsIff(col, expected, occs);
    }
  }

  /** The errors are non-empty, and so the run fails, exactly when some
      mapped column is not enforced; mismatches have no say in it. */
  lemma {:induction false} RunFailsIff(ps: seq<(string, Value)>, index: map<string, seq<Occurrence>>)
    ensures OfKind(AllFindings(ps, index), EnforcementError) != []
      <==> exists i :: 0 <= i < |ps| && Unenforced(Lookup(index, ps[i].0))
  {
    if ps != [] {
      RunFailsIff(ps[1..], index);
      var head := ColumnFindings(ps[0].0, ps[0].1, Lookup(index, ps[0].0));
      ColumnErrorsIff(ps[0].0, ps[0].1, Lookup(index, ps[0].0));
      OfKindAppend(head, AllFindings(ps[1..], index), EnforcementError);
      if exists i :: 0 <= i < |ps| && Unenforced(Lookup(index, ps[i].0)) {
        var i :| 0 <= i < |ps| && Unenforced(Lookup(index, ps[i].0));
        if i > 0 {
          assert ps[1..][i - 1] == ps[i];
        }
      }
      if exists i :: 0 <= i < |ps[1..]| && Unenforced(Lookup(index, ps[1..][i].0)) {
        var i :| 0 <= i < |ps[1..]| && Unenforced(Lookup(index, ps[1..][i].0));
        assert ps[i + 1] == ps[1..][i];
      }
    }
  }

  /** The column has no in-scope row, or one whose role is null or empty. */
  ghost predicate UnenforcedInRows(rows: seq<AuditRow>, col: string) {
    || (forall r :: r in rows && InScope(r) ==> r.columnName != col)
    || (exists r :: r in rows && InScope(r) && r.columnName == col && Unprotected(OccurrenceOf(r)))
  }

  /** Stated on the audit rows: with the index built from the in-scope
      rows, the run fails exactly when some mapped column has no in-scope
      row, or has one whose role is null or empty. */
  lemma RunFailsIffOnRows(ps: seq<(string, Value)>, rows: seq<AuditRow>)
    ensures OfKind(AllFindings(ps, IndexOf(FilterRows(rows))), EnforcementError) != []
      <==> exists i :: 0 <= i < |ps| && UnenforcedInRows(rows, ps[i].0)
  {
    RunFailsIff(ps, IndexOf(FilterRows(rows)));
    forall col ensures Unenforced(Lookup(IndexOf(FilterRows(rows)), col)) <==> UnenforcedInRows(rows, col) {
      UnenforcedOnRows(rows, col);
    }
  }

  /** Looking a column up in the index gives its occurrences. */
  lemma LookupIndexOf(rows: seq<AuditRow>, col: string)
    ensures Lookup(IndexOf(rows), col) == OccurrencesOf(rows, col)
  {
    if col !in IndexOf(rows) {
      OccurrencesOfAbsent(rows, col);
    }
  }

  lemma UnenforcedOnRows(rows: seq<AuditRow>, col: string)
    ensures Unenforced(Lookup(IndexOf(FilterRows(rows)), col)) <==> UnenforcedInRows(rows, col)
  {
    var kept := FilterRows(rows);
    var occs := OccurrencesOf(kept, col);
    LookupIndexOf(kept, col);
    OccurrencesOfMembers(kept, col);
    if occs != [] {
      assert occs[0] in occs;
    }
    if exists r :: r in rows && InScope(r) && r.columnName == col {
      var r :| r in rows && InScope(r) && r.columnName == col;
      OccurrenceOfRow(kept, r);
    }
    if exists o :: o in occs && Unprotected(o) {
      var o :| o in occs && Unprotected(o);
      var r :| r in kept && r.columnName == col && OccurrenceOf(r) == o;
    }
    if exists r :: r in rows && InScope(r) && r.columnName == col && Unprotected(OccurrenceOf(r)) {
      var r :| r in rows && InScope(r) && r.columnName == col && Unprotected(OccurrenceOf(r));
      OccurrenceOfRow(kept, r);
    }
  }
}
