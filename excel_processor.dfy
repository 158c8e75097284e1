/**
 * The spreadsheet loader: the header check and the all-or-nothing row
 * aggregation. Reading the workbook and cleaning its cells are not modelled;
 * a row arrives as its index label and a map from header to cell text.
 */
module ExcelProcessor {
  import opened Wrappers
  import opened Text
  import opened Records
  import opened Schemas

  /** `COLUMN_MAPPING`: spreadsheet header to schema field, in declaration order. */
  const ColumnMapping: seq<(string, string)> := [
    ("Tipo de Solicitud", "request_type"),
    ("Nombre", "full_name"),
    ("Apellido", "full_last_name"),
    ("Tipo de Identificación", "type_document"),
    ("Número de Identificación", "identification_id"),
    ("Tipo de Vinculación", "vinculation_type"),
    ("Dependencia Administrativa / Programa Académico", "academic_program"),
    ("Correo Electrónico Personal", "email_personal")
  ]

  /** The required headers, in mapping order. */
  function Headers(): (hs: seq<string>)
    ensures |hs| == |ColumnMapping|
    ensures forall k :: 0 <= k < |hs| ==> hs[k] == ColumnMapping[k].0
  {
    seq(|ColumnMapping|, k requires 0 <= k < |ColumnMapping| => ColumnMapping[k].0)
  }

  /** No element occurs twice. */
  ghost predicate Distinct(s: seq<string>) {
    forall x :: multiset(s)[x] <= 1
  }

  // ------------------------------------------------------------------
  // _validate_columns
  // ------------------------------------------------------------------

  /** The headers of `hs` that are not among the actual columns, in the order of `hs`. */
  function Missing(hs: seq<string>, actual: set<string>): seq<string> {
    if hs == [] then [] else (if hs[0] in actual then [] else [hs[0]]) + Missing(hs[1..], actual)
  }

  lemma {:induction false} MissingMembers(hs: seq<string>, actual: set<string>)
    ensures forall h :: h in Missing(hs, actual) <==> h in hs && h !in actual
  {
    if hs != [] {
      MissingMembers(hs[1..], actual);
      assert hs == [hs[0]] + hs[1..];
    }
  }

  lemma {:induction false} MissingSubMultiset(hs: seq<string>, actual: set<string>)
    ensures multiset(Missing(hs, actual)) <= multiset(hs)
  {
    if hs != [] {
      MissingSubMultiset(hs[1..], actual);
      assert hs == [hs[0]] + hs[1..];
    }
  }

  /** The missing headers as the error message lists them: sorted. */
  function MissingColumns(actual: set<string>): seq<string> {
    Sort(Missing(Headers(), actual))
  }

  /** `_validate_columns`: the error it raises, if any. */
  function ValidateColumns(actual: set<string>): (r: Result<(), string>)
    ensures r.Err? ==> MissingColumns(actual) != []
  {
    var missing := MissingColumns(actual);
    if missing != [] then Err("Columnas faltantes en Excel: " + JoinWith(", ", missing)) else Ok(())
  }

  /** Elements of pairwise different lengths are pairwise different. */
  lemma {:induction false} DistinctByLength(s: seq<string>)
    requires forall i, j :: 0 <= i < j < |s| ==> |s[i]| != |s[j]|
    ensures Distinct(s)
  {
    if s != [] {
      var t := s[1..];
      assert s == [s[0]] + t;
      DistinctByLength(t);
      assert s[0] !in t by {
        forall k | 0 <= k < |t| ensures t[k] != s[0] {
          assert t[k] == s[k + 1];
        }
      }
    }
  }

  /** The eight headers are pairwise different (their lengths already are). */
  lemma HeadersDistinct()
    ensures Distinct(Headers())
  {
    var hs := Headers();
    assert |hs[0]| == 17 && |hs[1]| == 6 && |hs[2]| == 8 && |hs[3]| == 22;
    assert |hs[4]| == 24 && |hs[5]| == 19 && |hs[6]| == 47 && |hs[7]| == 27;
    DistinctByLength(hs);
  }

  /** Sorting the absent headers of a duplicate-free list: sorted, duplicate-free, exactly the absent ones. */
  lemma {:induction false} SortedMissingExact(hs: seq<string>, actual: set<string>)
    requires Distinct(hs)
    ensures var m := Sort(Missing(hs, actual));
      Sorted(m) && Distinct(m) && forall h :: h in m <==> h in hs && h !in actual
  {
    var raw := Missing(hs, actual);
    var m := Sort(raw);
    SortCorrect(raw);
    MissingMembers(hs, actual);
    MissingSubMultiset(hs, actual);
    forall h ensures h in m <==> h in raw {
      assert h in m <==> h in multiset(m);
      assert h in raw <==> h in multiset(raw);
    }
    forall x ensures multiset(m)[x] <= 1 {
      assert multiset(raw)[x] <= multiset(hs)[x];
    }
  }

  /**
   * The check fails exactly when a required header is absent, and its
   * message lists each absent header once, in sorted order, and nothing else.
   */
  lemma {:induction false} ValidateColumnsExact(actual: set<string>)
    ensures ValidateColumns(actual).Err? <==> exists h :: h in Headers() && h !in actual
    ensures var m := MissingColumns(actual);
      && Sorted(m) && Distinct(m)
      && (forall h :: h in m <==> h in Headers() && h !in actual)
      && (ValidateColumns(actual).Err? ==> ValidateColumns(actual).error == "Columnas faltantes en Excel: " + JoinWith(", ", m))
  {
    HeadersDistinct();
    SortedMissingExact(Headers(), actual);
    var m := MissingColumns(actual);
    if m != [] {
      assert m[0] in m;
    }
  }

  // ------------------------------------------------------------------
  // _process_rows
  // ------------------------------------------------------------------

  /** One data row: its index label and its cells by header. */
  datatype Row = Row(index: nat, cells: map<string, string>)

  /** The first header of `hs` without a cell, in the order of `hs`. */
  function FirstMissing(hs: seq<string>, cells: map<string, string>): (r: Option<string>)
    ensures r.None? <==> forall k :: 0 <= k < |hs| ==> hs[k] in cells
    ensures r.Some? ==> r.value in hs && r.value !in cells
  {
    if hs == [] then None
    else if hs[0] !in cells then Some(hs[0])
    else FirstMissing(hs[1..], cells)
  }

  /** The schema's input, field by field from its mapped column; a missing column fails with its key. */
  function RowFields(row: Row): Result<Fields, string> {
    match FirstMissing(Headers(), row.cells)
    case Some(col) => Err(col)
    case None =>
      var c := row.cells;
      Ok(Fields(c[ColumnMapping[0].0], c[ColumnMapping[1].0], c[ColumnMapping[2].0], c[ColumnMapping[3].0],
                c[ColumnMapping[4].0], c[ColumnMapping[5].0], c[ColumnMapping[6].0], c[ColumnMapping[7].0]))
  }

  /** A schema field by its name: an independent reading of which field a mapping entry fills. */
  function FieldNamed(f: Fields, name: string): Option<string> {
    if name == "request_type" then Some(f.requestType)
    else if name == "full_name" then Some(f.fullName)
    else if name == "full_last_name" then Some(f.fullLastName)
    else if name == "type_document" then Some(f.typeDocument)
    else if name == "identification_id" then Some(f.identificationId)
    else if name == "vinculation_type" then Some(f.vinculationType)
    else if name == "academic_program" then Some(f.academicProgram)
    else if name == "email_personal" then Some(f.emailPersonal)
    else None
  }

  /**
   * Each schema field is the cell of the column the mapping names for it,
   * and a row lacking any mapped column fails on the first one lacking.
   */
  lemma {:induction false} RowFieldsFollowMapping(row: Row)
    ensures RowFields(row).Err? <==> exists k :: 0 <= k < |ColumnMapping| && ColumnMapping[k].0 !in row.cells
    ensures RowFields(row).Err? ==> RowFields(row).error in Headers() && RowFields(row).error !in row.cells
    ensures RowFields(row).Ok? ==> forall k :: 0 <= k < |ColumnMapping| ==>
              FieldNamed(RowFields(row).value, ColumnMapping[k].1) == Some(row.cells[ColumnMapping[k].0])
  {
  }

  /** The row number the messages use: the index label, one-based, past the skipped rows. */
  function RowNumber(row: Row, skipRows: nat): nat {
    row.index + 1 + skipRows
  }

  /** `"field: msg"` for each validation error. */
  function Details(es: seq<FieldError>): (r: seq<string>)
    ensures |r| == |es|
  {
    seq(|es|, i requires 0 <= i < |es| => es[i].field + ": " + es[i].msg)
  }

  /** What one row contributes: its record, or the message logged for it. */
  function RowOutcome(row: Row, skipRows: nat): Result<User, string> {
    var prefix := "Fila " + Decimal(RowNumber(row, skipRows)) + ": ";
    match RowFields(row)
    case Err(col) => Err(prefix + "Error inesperado - '" + col + "'")
    case Ok(raw) =>
      match Validate(raw)
      case Err(es) => Err(prefix + JoinWith("; ", Details(es)))
      case Ok(f) => Ok(Candidate(f))
  }

  /** Every row message starts with the row number. */
  lemma {:induction false} RowMessageNumbered(row: Row, skipRows: nat)
    requires RowOutcome(row, skipRows).Err?
    ensures StartsWith(RowOutcome(row, skipRows).error, "Fila " + Decimal(row.index + 1 + skipRows) + ": ")
  {
    var p := "Fila " + Decimal(row.index + 1 + skipRows) + ": ";
    var e := RowOutcome(row, skipRows).error;
    assert e[..|p|] == p;
  }

  /** A row is accepted exactly when it has every column and the schema accepts it; its record has its names extracted. */
  lemma {:induction false} RowOutcomeAccepts(row: Row, skipRows: nat)
    ensures RowOutcome(row, skipRows).Ok? <==> RowFields(row).Ok? && Validate(RowFields(row).value).Ok?
    ensures RowOutcome(row, skipRows).Ok? ==>
      var f := Validate(RowFields(row).value).value;
      var u := RowOutcome(row, skipRows).value;
      && u.requestType == f.requestType && u.fullName == f.fullName && u.fullLastName == f.fullLastName
      && u.identificationId == f.identificationId && u.emailPersonal == f.emailPersonal
      && u.firstName == FirstWord(f.fullName) && u.firstLastName == FirstWord(f.fullLastName)
      && u.secondLastName == SecondWord(f.fullLastName)
  {
  }

  /** Each row's outcome, in row order. */
  function Outcomes(rows: seq<Row>, skipRows: nat): (os: seq<Result<User, string>>)
    ensures |os| == |rows|
    ensures forall i :: 0 <= i < |rows| ==> os[i] == RowOutcome(rows[i], skipRows)
  {
    seq(|rows|, i requires 0 <= i < |rows| => RowOutcome(rows[i], skipRows))
  }

  /** The records of the accepted outcomes, in order. */
  function Accepted(os: seq<Result<User, string>>): (r: seq<User>)
    ensures |r| <= |os|
  {
    if os == [] then [] else
      var last := os[|os| - 1];
      Accepted(os[..|os| - 1]) + (if last.Ok? then [last.value] else [])
  }

  /** The messages of the rejected outcomes, in order. */
  function Rejected(os: seq<Result<User, string>>): (r: seq<string>)
    ensures |r| <= |os|
  {
    if os == [] then [] else
      var last := os[|os| - 1];
      Rejected(os[..|os| - 1]) + (if last.Err? then [last.error] else [])
  }

  /** One more outcome adds its record or its message. */
  lemma {:induction false} OutcomeStep(os: seq<Result<User, string>>, i: nat)
    requires i < |os|
    ensures Accepted(os[..i + 1]) == Accepted(os[..i]) + (if os[i].Ok? then [os[i].value] else [])
    ensures Rejected(os[..i + 1]) == Rejected(os[..i]) + (if os[i].Err? then [os[i].error] else [])
  {
    assert os[..i + 1][..i] == os[..i];
  }

  /** The exception message once every row has been tried. */
  function Summary(errors: seq<string>): string {
    "Se encontraron " + Decimal(|errors|) + " errores de validación:\n" + JoinWith("\n", errors)
  }

  /** What `_process_rows` returns or raises. */
  function ProcessRowsSpec(rows: seq<Row>, skipRows: nat): Result<seq<User>, string> {
    var os := Outcomes(rows, skipRows);
    if Rejected(os) != [] then Err(Summary(Rejected(os))) else Ok(Accepted(os))
  }

  /** Every rejected outcome's message is reported. */
  lemma {:induction false} RejectedComplete(os: seq<Result<User, string>>)
    ensures forall i :: 0 <= i < |os| && os[i].Err? ==> os[i].error in Rejected(os)
  {
    if os != [] {
      var init := os[..|os| - 1];
      RejectedComplete(init);
      assert forall i :: 0 <= i < |init| ==> init[i] == os[i];
    }
  }

  /** Every reported message is a rejected outcome's. */
  lemma {:induction false} RejectedSound(os: seq<Result<User, string>>)
    ensures forall e :: e in Rejected(os) ==> exists i :: 0 <= i < |os| && os[i].Err? && os[i].error == e
  {
    if os != [] {
      var init := os[..|os| - 1];
      RejectedSound(init);
      forall e | e in Rejected(os) ensures exists i :: 0 <= i < |os| && os[i].Err? && os[i].error == e {
        if e in Rejected(init) {
          var i :| 0 <= i < |init| && init[i].Err? && init[i].error == e;
          assert os[i] == init[i];
        } else {
          assert os[|os| - 1].Err? && os[|os| - 1].error == e;
        }
      }
    }
  }

  /** Nothing is reported exactly when every outcome is accepted. */
  lemma {:induction false} RejectedEmpty(os: seq<Result<User, string>>)
    ensures Rejected(os) == [] <==> forall i :: 0 <= i < |os| ==> os[i].Ok?
  {
    if os != [] {
      var init := os[..|os| - 1];
      RejectedEmpty(init);
      assert forall i :: 0 <= i < |init| ==> init[i] == os[i];
    }
  }

  /** With every outcome accepted, one record per outcome, in order. */
  lemma {:induction false} AcceptedAll(os: seq<Result<User, string>>)
    requires forall i :: 0 <= i < |os| ==> os[i].Ok?
    ensures |Accepted(os)| == |os|
    ensures forall i :: 0 <= i < |os| ==> Accepted(os)[i] == os[i].value
  {
    if os != [] {
      var init := os[..|os| - 1];
      assert forall i :: 0 <= i < |init| ==> init[i] == os[i];
      AcceptedAll(init);
    }
  }

  /**
   * All or nothing: the rows yield records only when every row is accepted,
   * then one record per row in order; otherwise the error counts and reports
   * the rejected rows' messages, every one and nothing else.
   */
  lemma {:induction false} ProcessRowsAllOrNothing(rows: seq<Row>, skipRows: nat)
    ensures var r := ProcessRowsSpec(rows, skipRows);
      && (r.Ok? <==> forall i :: 0 <= i < |rows| ==> RowOutcome(rows[i], skipRows).Ok?)
      && (r.Ok? ==> |r.value| == |rows| && forall i :: 0 <= i < |rows| ==> r.value[i] == RowOutcome(rows[i], skipRows).value)
      && (r.Err? ==> r.error == Summary(Rejected(Outcomes(rows, skipRows))))
  {
    var os := Outcomes(rows, skipRows);
    RejectedEmpty(os);
    if Rejected(os) == [] {
      AcceptedAll(os);
    }
  }

  /** The report names every rejected row, and only rejected rows. */
  lemma {:induction false} ProcessRowsReportsEveryRow(rows: seq<Row>, skipRows: nat)
    ensures var errors := Rejected(Outcomes(rows, skipRows));
      && (forall i :: 0 <= i < |rows| && RowOutcome(rows[i], skipRows).Err? ==> RowOutcome(rows[i], skipRows).error in errors)
      && (forall e :: e in errors ==> exists i :: 0 <= i < |rows| && RowOutcome(rows[i], skipRows).Err? && RowOutcome(rows[i], skipRows).error == e)
  {
    var os := Outcomes(rows, skipRows);
    RejectedComplete(os);
    RejectedSound(os);
  }

  /** Once the header check has passed on the sheet's columns, no row fails with a missing key. */
  lemma {:induction false} CheckedColumnsNoUnexpected(columns: set<string>, row: Row)
    requires ValidateColumns(columns).Ok?
    requires forall h :: h in columns ==> h in row.cells
    ensures RowFields(row).Ok?
  {
    ValidateColumnsExact(columns);
    RowFieldsFollowMapping(row);
  }

  /** The loader, configured with how many leading rows the sheet skips. */
  class ExcelProcessor {
    const skipRows: nat

    constructor (skipRows: nat)
      ensures this.skipRows == skipRows
    {
      this.skipRows := skipRows;
    }

    /** `_process_rows`: try every row, collecting records and messages; raise if any row failed. */
    method ProcessRows(rows: seq<Row>) returns (r: Result<seq<User>, string>)
      ensures r == ProcessRowsSpec(rows, skipRows)
    {
      var users: seq<User> := [];
      var errors: seq<string> := [];
      ghost var os := Outcomes(rows, skipRows);
      for i := 0 to |rows|
        invariant users == Accepted(os[..i])
        invariant errors == Rejected(os[..i])
      {
        var row := rows[i];
        var prefix := "Fila " + Decimal(RowNumber(row, skipRows)) + ": ";
        OutcomeStep(os, i);
        assert os[i] == RowOutcome(row, skipRows);
        var fields := RowFields(row);
        if fields.Err? {
          errors := errors + [prefix + "Error inesperado - '" + fields.error + "'"];
        } else {
          var validated := Validate(fields.value);
          if validated.Err? {
            errors := errors + [prefix + JoinWith("; ", Details(validated.error))];
          } else {
            var u := BuildCandidate(validated.value);
            users := users + [u];
          }
        }
      }
      assert os[..|rows|] == os;
      if errors != [] {
        r := Err(Summary(errors));
      } else {
        r := Ok(users);
      }
    }
  }
}
