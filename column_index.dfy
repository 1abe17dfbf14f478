/** The lookup of actual columns (test_dbt_columns.py:112-122): every audit
    row, grouped by column name, keeping the order in which rows are met. */
module ColumnIndex {
  import opened Values
  import opened AuditRows

  /** One appearance of a column in a model, with the role it carries there. */
  datatype Occurrence = Occurrence(modelName: string, columnSecurityRole: Option<string>)

  function OccurrenceOf(r: AuditRow): Occurrence {
    Occurrence(r.modelName, r.columnSecurityRole)
  }

  /** Reference definition: the occurrences of column `col`, in row order. */
  function OccurrencesOf(rows: seq<AuditRow>, col: string): seq<Occurrence> {
    if rows == [] then []
    else
      var head := if rows[0].columnName == col then [OccurrenceOf(rows[0])] else [];
      head + OccurrencesOf(rows[1..], col)
  }

  /** The column names that occur in the rows. */
  ghost function ColumnNames(rows: seq<AuditRow>): set<string> {
    set r | r in rows :: r.columnName
  }

  /** The index the audit consults: column name to its occurrences. */
  ghost function IndexOf(rows: seq<AuditRow>): map<string, seq<Occurrence>> {
    map c | c in ColumnNames(rows) :: OccurrencesOf(rows, c)
  }

  /** The column names in order of first appearance (the key order of the
      source's dictionary). */
  function ColumnOrder(rows: seq<AuditRow>): seq<string>
    decreases |rows|
  {
    if rows == [] then []
    else
      var earlier := ColumnOrder(rows[..|rows| - 1]);
      if rows[|rows| - 1].columnName in earlier then earlier
      else earlier + [rows[|rows| - 1].columnName]
  }

  /** Appending a row extends exactly the list of its own column. */
  lemma {:induction false} OccurrencesOfSnoc(rows: seq<AuditRow>, r: AuditRow, col: string)
    ensures OccurrencesOf(rows + [r], col) ==
      OccurrencesOf(rows, col) + (if r.columnName == col then [OccurrenceOf(r)] else [])
  {
    if rows == [] {
      assert rows + [r] == [r];
    } else {
      assert (rows + [r])[1..] == rows[1..] + [r];
      OccurrencesOfSnoc(rows[1..], r, col);
    }
  }

  /** A column that no row carries has no occurrences. */
  lemma {:induction false} OccurrencesOfAbsent(rows: seq<AuditRow>, col: string)
    requires col !in ColumnNames(rows)
    ensures OccurrencesOf(rows, col) == []
  {
    if rows != [] {
      assert rows[0] in rows;
      assert ColumnNames(rows[1..]) <= ColumnNames(rows) by {
        forall r | r in rows[1..] ensures r in rows { }
      }
      OccurrencesOfAbsent(rows[1..], col);
    }
  }

  lemma ColumnNamesSnoc(rows: seq<AuditRow>, r: AuditRow)
    ensures ColumnNames(rows + [r]) == ColumnNames(rows) + {r.columnName}
  {
    assert forall x :: x in rows + [r] <==> x in rows || x == r;
  }

  /** Appending a row to the audit updates the index at the row's column
      only, by appending the row's occurrence there. */
  lemma IndexOfSnoc(rows: seq<AuditRow>, r: AuditRow)
    ensures IndexOf(rows + [r]) ==
      IndexOf(rows)[r.columnName := OccurrencesOf(rows, r.columnName) + [OccurrenceOf(r)]]
  {
    ColumnNamesSnoc(rows, r);
    var lhs := IndexOf(rows + [r]);
    var rhs := IndexOf(rows)[r.columnName := OccurrencesOf(rows, r.columnName) + [OccurrenceOf(r)]];
    assert lhs.Keys == rhs.Keys;
    forall c | c in lhs.Keys ensures lhs[c] == rhs[c] {
      OccurrencesOfSnoc(rows, r, c);
    }
  }

  /** Builds the index by appending each row to the list of its column;
      the result is the reference index. */
  method BuildIndex(rows: seq<AuditRow>) returns (index: map<string, seq<Occurrence>>)
    ensures index == IndexOf(rows)
  {
    index := map[];
    for i := 0 to |rows|
      invariant index == IndexOf(rows[..i])
    {
      var r := rows[i];
      var list := if r.columnName in index then index[r.columnName] else [];
      if r.columnName !in index {
        OccurrencesOfAbsent(rows[..i], r.columnName);
      }
      assert rows[..i + 1] == rows[..i] + [r];
      IndexOfSnoc(rows[..i], r);
      index := index[r.columnName := list + [OccurrenceOf(r)]];
    }
    assert rows[..|rows|] == rows;
  }

  /** The keys of the index are exactly the columns of the rows, and each
      list is non-empty, so a column is missing from the audit exactly when
      it has no key. */
  lemma {:induction false} IndexKeys(rows: seq<AuditRow>, col: string)
    ensures col in IndexOf(rows) <==> exists r :: r in rows && r.columnName == col
    ensures col in IndexOf(rows) ==> IndexOf(rows)[col] != []
  {
    if col in IndexOf(rows) {
      var r :| r in rows && r.columnName == col;
      OccurrenceOfRow(rows, r);
    }
  }

  /** A row's occurrence is in the list of its column. */
  lemma {:induction false} OccurrenceOfRow(rows: seq<AuditRow>, r: AuditRow)
    requires r in rows
    ensures OccurrenceOf(r) in OccurrencesOf(rows, r.columnName)
  {
    if rows[0] != r {
      OccurrenceOfRow(rows[1..], r);
    }
  }

  /** The list of a column holds exactly the occurrences of its rows. */
  lemma {:induction false} OccurrencesOfMembers(rows: seq<AuditRow>, col: string)
    ensures forall o :: o in OccurrencesOf(rows, col) <==>
      exists r :: r in rows && r.columnName == col && OccurrenceOf(r) == o
  {
    if rows != [] {
      OccurrencesOfMembers(rows[1..], col);
      assert forall r :: r in rows <==> r == rows[0] || r in rows[1..];
    }
  }

  /** Total length of the lists of the columns `cs`. */
  function TotalOccurrences(rows: seq<AuditRow>, cs: seq<string>): nat {
    if cs == [] then 0
    else |OccurrencesOf(rows, cs[0])| + TotalOccurrences(rows, cs[1..])
  }

  predicate Distinct(cs: seq<string>) {
    forall i, j :: 0 <= i < j < |cs| ==> cs[i] != cs[j]
  }

  /** The first-appearance order lists every column once. */
  lemma {:induction false} ColumnOrderKeys(rows: seq<AuditRow>)
    ensures Distinct(ColumnOrder(rows))
    ensures forall c :: c in ColumnOrder(rows) <==> c in ColumnNames(rows)
    decreases |rows|
  {
    if rows != [] {
      var init := rows[..|rows| - 1];
      ColumnOrderKeys(init);
      assert rows == init + [rows[|rows| - 1]];
      assert ColumnNames(rows) == ColumnNames(init) + {rows[|rows| - 1].columnName};
    }
  }

  lemma {:induction false} TotalOccurrencesSnocRow(rows: seq<AuditRow>, r: AuditRow, cs: seq<string>)
    requires Distinct(cs)
    ensures TotalOccurrences(rows + [r], cs) ==
      TotalOccurrences(rows, cs) + (if r.columnName in cs then 1 else 0)
  {
    if cs != [] {
      OccurrencesOfSnoc(rows, r, cs[0]);
      TotalOccurrencesSnocRow(rows, r, cs[1..]);
      assert r.columnName in cs <==> r.columnName == cs[0] || r.columnName in cs[1..];
    }
  }

  lemma {:induction false} TotalOccurrencesSnocColumn(rows: seq<AuditRow>, cs: seq<string>, c: string)
    ensures TotalOccurrences(rows, cs + [c]) == TotalOccurrences(rows, cs) + |OccurrencesOf(rows, c)|
  {
    if cs == [] {
      assert cs + [c] == [c];
    } else {
      assert (cs + [c])[1..] == cs[1..] + [c];
      TotalOccurrencesSnocColumn(rows, cs[1..], c);
    }
  }

  /** Every row lands in exactly one list: summed over the columns, the
      lists are as long as the rows. */
  lemma {:induction false} IndexCoversEveryRowOnce(rows: seq<AuditRow>)
    ensures TotalOccurrences(rows, ColumnOrder(rows)) == |rows|
    decreases |rows|
  {
    if rows != [] {
      var init := rows[..|rows| - 1];
      var r := rows[|rows| - 1];
      assert rows == init + [r];
      IndexCoversEveryRowOnce(init);
      ColumnOrderKeys(init);
      TotalOccurrencesSnocRow(init, r, ColumnOrder(init));
      if r.columnName !in ColumnOrder(init) {
        TotalOccurrencesSnocColumn(rows, ColumnOrder(init), r.columnName);
        OccurrencesOfAbsent(init, r.columnName);
        OccurrencesOfSnoc(init, r, r.columnName);
      }
    }
  }
}
