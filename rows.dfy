/** Turning the data rows of one sheet into result records
    (lib/excel-parser.ts, lines 58-109). */
module SheetRows {
  import opened JsText
  import opened Cells
  import opened Normalize
  import opened Scoring
  import opened HeaderLocator
  import opened ResultModel

  /** What every row of a sheet shares. */
  datatype SheetContext = SheetContext(
    sheetName: string, eventName: string, category: string, cols: ColumnMap, isGroup: bool)

  /** Rows the parser drops: fewer than three cells, a blank name cell, or a
      name cell that repeats a caption ("Name of ..."). */
  predicate Rejected(row: Row, cols: ColumnMap)
  {
    |row| < 3 || StudentName(row, cols) == "" || Contains(Lower(StudentName(row, cols)), "name of")
  }

  /** `String(row[colMap.name] || '').trim()` */
  function StudentName(row: Row, cols: ColumnMap): string
  {
    Trim(FieldText(row, cols.name))
  }

  /** What every saved record satisfies. */
  predicate WellFormed(r: ResultRecord, ctx: SheetContext)
  {
    && r.eventCode == ctx.sheetName && r.eventName == ctx.eventName && r.category == ctx.category
    && r.studentName != "" && IsTrimmed(r.studentName) && !Contains(Lower(r.studentName), "name of")
    && IsTrimmed(r.school)
    && r.grade != "" && NoLowerCase(r.grade)
    && 0 <= r.points <= 2 * MaxAward(ctx.isGroup)
    && (|| r.points == Points(r.place, r.grade, ctx.isGroup)
        || (r.grade == "A" && r.points == PlacePoints(r.place, ctx.isGroup)))
  }

  /** The record pushed for a row that is not skipped. The grade is scored
      before a blank grade falls back to "A", except that the place "i"
      fills a blank grade with "A" before scoring. */
  function RowRecord(row: Row, ctx: SheetContext): ResultRecord
  {
    var cols := ctx.cols;
    var school := Trim(FieldText(row, cols.school));
    var grade := NormalizeGrade(FieldText(row, cols.grade));
    var placing := NormalizePlace(FieldText(row, cols.place), grade);
    var points := Points(placing.place, placing.grade, ctx.isGroup);
    ResultRecord(ctx.sheetName, ctx.eventName, ctx.category, StudentName(row, cols), school,
                 if placing.grade == "" then "A" else placing.grade, placing.place, points)
  }

  /** What one row adds to the batch: nothing when it is skipped. */
  function Emitted(row: Row, ctx: SheetContext): seq<ResultRecord>
  {
    if Rejected(row, ctx.cols) then [] else [RowRecord(row, ctx)]
  }

  /** The batch that rows `lo` up to (not including) `hi` produce, in row order. */
  function Records(rows: seq<Row>, lo: nat, hi: nat, ctx: SheetContext): (batch: seq<ResultRecord>)
    requires lo <= hi <= |rows|
    ensures |batch| <= hi - lo
    decreases hi - lo
  {
    if hi == lo then [] else Records(rows, lo, hi - 1, ctx) + Emitted(rows[hi - 1], ctx)
  }

  /** The batch of a sheet whose data starts at row `start`. */
  function DataRecords(rows: seq<Row>, start: nat, ctx: SheetContext): seq<ResultRecord>
  {
    if start <= |rows| then Records(rows, start, |rows|, ctx) else []
  }

  /** The row loop of lines 58-109: scan the rows from `start`, skip short
      rows and rows without a usable name, push a record for every other row. */
  method CollectRows(rows: seq<Row>, start: nat, ctx: SheetContext) returns (resultsToSave: seq<ResultRecord>)
    ensures resultsToSave == DataRecords(rows, start, ctx)
  {
    resultsToSave := [];
    if |rows| < start {
      // the loop condition fails at once: no row is read
      return;
    }
    var i := start;
    while i < |rows|
      invariant start <= i <= |rows|
      invariant resultsToSave == Records(rows, start, i, ctx)
    {
      var row := rows[i];
      assert Records(rows, start, i + 1, ctx) == resultsToSave + Emitted(row, ctx);
      i := i + 1;
      if |row| < 3 {
        assert Emitted(row, ctx) == [];
        continue;
      }
      var studentName := StudentName(row, ctx.cols);
      if studentName == "" || Contains(Lower(studentName), "name of") {
        assert Emitted(row, ctx) == [];
        continue;
      }
      assert Emitted(row, ctx) == [RowRecord(row, ctx)];
      resultsToSave := resultsToSave + [RowRecord(row, ctx)];
    }
  }

  /** A row that is not skipped gives a well-formed record with its trimmed name cell. */
  lemma RowRecordWellFormed(row: Row, ctx: SheetContext)
    requires !Rejected(row, ctx.cols)
    ensures WellFormed(RowRecord(row, ctx), ctx)
    ensures RowRecord(row, ctx).studentName == StudentName(row, ctx.cols)
  {
    var r := RowRecord(row, ctx);
    var name := StudentName(row, ctx.cols);
    assert r.studentName == name;
    assert name != "" && IsTrimmed(name) by { TrimSpec(FieldText(row, ctx.cols.name)); }
    assert IsTrimmed(r.school) by { TrimSpec(FieldText(row, ctx.cols.school)); }
    var grade := NormalizeGrade(FieldText(row, ctx.cols.grade));
    var placing := NormalizePlace(FieldText(row, ctx.cols.place), grade);
    assert r.place == placing.place && r.points == Points(placing.place, placing.grade, ctx.isGroup);
    assert r.grade == (if placing.grade == "" then "A" else placing.grade);
    assert NoLowerCase(placing.grade) && (placing.grade == "" || placing.grade == grade || placing.grade == "A") by {
      NormalizeGradeSpec(FieldText(row, ctx.cols.grade));
      NormalizePlaceSpec(FieldText(row, ctx.cols.place), grade);
    }
    assert r.grade != "" && NoLowerCase(r.grade);
    assert 0 <= r.points <= 2 * MaxAward(ctx.isGroup);
    if placing.grade == "" {
      assert r.grade == "A" && r.points == PlacePoints(r.place, ctx.isGroup) + GradePoints("", ctx.isGroup);
    } else {
      assert r.points == Points(r.place, r.grade, ctx.isGroup);
    }
  }

  /** Every record of a batch is well-formed, so it carries the sheet's replace key. */
  lemma {:induction false} RecordsWellFormed(rows: seq<Row>, lo: nat, hi: nat, ctx: SheetContext)
    requires lo <= hi <= |rows|
    ensures forall r :: r in Records(rows, lo, hi, ctx) ==> WellFormed(r, ctx)
    ensures KeyedBy(Records(rows, lo, hi, ctx), EventKey(ctx.eventName, ctx.category))
    decreases hi - lo
  {
    if hi > lo {
      RecordsWellFormed(rows, lo, hi - 1, ctx);
      var last := rows[hi - 1];
      if !Rejected(last, ctx.cols) {
        RowRecordWellFormed(last, ctx);
      }
    }
  }

  /** A batch is empty exactly when every row of its range is skipped. */
  lemma {:induction false} RecordsEmpty(rows: seq<Row>, lo: nat, hi: nat, ctx: SheetContext)
    requires lo <= hi <= |rows|
    ensures |Records(rows, lo, hi, ctx)| == 0 <==> forall i :: lo <= i < hi ==> Rejected(rows[i], ctx.cols)
    decreases hi - lo
  {
    if hi > lo {
      RecordsEmpty(rows, lo, hi - 1, ctx);
      assert |Records(rows, lo, hi, ctx)| == |Records(rows, lo, hi - 1, ctx)| + |Emitted(rows[hi - 1], ctx)|;
      assert |Emitted(rows[hi - 1], ctx)| == 0 <==> Rejected(rows[hi - 1], ctx.cols);
      RejectedUpTo(rows, lo, hi, ctx.cols);
    }
  }

  /** Every row of `[lo, hi)` is skipped exactly when every row of
      `[lo, hi - 1)` and the last one are. */
  lemma RejectedUpTo(rows: seq<Row>, lo: nat, hi: nat, cols: ColumnMap)
    requires lo < hi <= |rows|
    ensures (forall i :: lo <= i < hi ==> Rejected(rows[i], cols))
        <==> (forall i :: lo <= i < hi - 1 ==> Rejected(rows[i], cols)) && Rejected(rows[hi - 1], cols)
  {
  }

  /** A column the header does not have reads as blank: without a school
      column the school is "", without a grade column the grade is "A" and
      earns nothing, without a place column the place is "". */
  lemma MissingColumns(row: Row, ctx: SheetContext)
    requires !Rejected(row, ctx.cols)
    requires ctx.cols.school == -1 && ctx.cols.grade == -1 && ctx.cols.place == -1
    ensures var r := RowRecord(row, ctx);
      r.school == "" && r.grade == "A" && r.place == "" && r.points == 0
  {
    assert FieldText(row, -1) == "";
    assert Trim("") == "";
    NormalizeGradeSpec("");
    BlankPlace("");
  }

  /** A blank grade is stored as "A" but earns no grade points; the same row
      with the place "i" has its grade set before scoring and earns both. */
  lemma BlankGradeFallback(row: Row, ctx: SheetContext)
    requires !Rejected(row, ctx.cols)
    requires AllWhitespace(FieldText(row, ctx.cols.grade))
    ensures var r := RowRecord(row, ctx);
      && r.grade == "A"
      && (PlaceToken(FieldText(row, ctx.cols.place)) != "i" ==> r.points == PlacePoints(r.place, ctx.isGroup))
      && (PlaceToken(FieldText(row, ctx.cols.place)) == "i" ==> r.place == "First" && r.points == 2 * MaxAward(ctx.isGroup))
  {
    var raw := FieldText(row, ctx.cols.grade);
    NormalizeGradeSpec(raw);
    assert NormalizeGrade(raw) == "";
    NormalizePlaceSpec(FieldText(row, ctx.cols.place), "");
  }
}
