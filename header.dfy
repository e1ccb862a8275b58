/** Locating the header row and its column map
    (lib/excel-parser.ts, lines 36-50 and 56). */
module HeaderLocator {
  import opened JsText
  import opened Cells

  /** Column indices of the four fields; -1 means "not found", and reading
      that column then yields "". */
  datatype ColumnMap = ColumnMap(name: int, school: int, grade: int, place: int)

  /** The fixed layout used when no header row is found. */
  const DefaultColumns := ColumnMap(2, 4, 5, 6)

  /** The first data row when no header row is found. */
  const DefaultDataStart := 5

  /** How many leading rows are searched for a header. */
  const HeaderWindow := 10

  /** The header row's index (-1 when none was found) and the column map. */
  datatype Header = Header(rowIndex: int, cols: ColumnMap)

  /** `String(c).toLowerCase().trim()` */
  function CellKey(c: Cell): string
  {
    Trim(Lower(ToText(c)))
  }

  /** `row.map(c => String(c).toLowerCase().trim())` */
  function RowKeys(row: Row): seq<string>
  {
    seq(|row|, i requires 0 <= i < |row| => CellKey(row[i]))
  }

  predicate IsNameKey(k: string)   { Contains(k, "student") || Contains(k, "name") }
  predicate IsSchoolKey(k: string) { Contains(k, "school") || Contains(k, "institution") }
  predicate IsGradeKey(k: string)  { Contains(k, "grade") || Contains(k, "mark") || k == "1" }
  predicate IsPlaceKey(k: string)  { Contains(k, "place") || Contains(k, "rank") || Contains(k, "pos") }

  /** A header row has a cell naming the student column. */
  predicate IsHeaderRow(row: Row)
  {
    exists i :: 0 <= i < |row| && IsNameKey(CellKey(row[i]))
  }

  /** The column map read off a header row: each field is the first cell
      matching its keywords, or -1. */
  function ColumnsOf(row: Row): ColumnMap
  {
    var keys := RowKeys(row);
    ColumnMap(FindIndex(keys, IsNameKey), FindIndex(keys, IsSchoolKey),
              FindIndex(keys, IsGradeKey), FindIndex(keys, IsPlaceKey))
  }

  /** `Math.min(rows.length, 10)` */
  function ScanLimit(rows: seq<Row>): nat
  {
    if |rows| < HeaderWindow then |rows| else HeaderWindow
  }

  /** The header search from row `i` on. */
  function ScanFrom(rows: seq<Row>, i: nat): (h: Header)
    ensures h.rowIndex == -1 || i <= h.rowIndex < ScanLimit(rows)
    decreases ScanLimit(rows) - i
  {
    if i >= ScanLimit(rows) then Header(-1, DefaultColumns)
    else if IsHeaderRow(rows[i]) then Header(i, ColumnsOf(rows[i]))
    else ScanFrom(rows, i + 1)
  }

  /** The search from row `i` finds the first header row at or after `i`
      within the window, with its column map, or reports -1 and the default
      layout when there is none. */
  lemma {:induction false} ScanFromSpec(rows: seq<Row>, i: nat)
    ensures var h := ScanFrom(rows, i);
      && (h.rowIndex == -1 <==> forall j :: i <= j < ScanLimit(rows) ==> !IsHeaderRow(rows[j]))
      && (h.rowIndex == -1 ==> h.cols == DefaultColumns)
      && (h.rowIndex != -1 ==>
            && i <= h.rowIndex < ScanLimit(rows) && IsHeaderRow(rows[h.rowIndex])
            && (forall j :: i <= j < h.rowIndex ==> !IsHeaderRow(rows[j]))
            && h.cols == ColumnsOf(rows[h.rowIndex]))
    decreases ScanLimit(rows) - i
  {
    if i < ScanLimit(rows) && !IsHeaderRow(rows[i]) {
      ScanFromSpec(rows, i + 1);
      var h := ScanFrom(rows, i + 1);
      assert ScanFrom(rows, i) == h;
      var upTo := if h.rowIndex == -1 then ScanLimit(rows) else h.rowIndex;
      forall j | i <= j < upTo ensures !IsHeaderRow(rows[j]) {
        if j == i {
        } else {
          assert i + 1 <= j;
        }
      }
    }
  }

  /** The header of a sheet: the first header row among the first
      `min(|rows|, 10)` rows, or the default layout when there is none. */
  function FindHeader(rows: seq<Row>): Header
  {
    ScanFrom(rows, 0)
  }

  /** The first data row: right after the header, or row 5 without one. */
  function DataStart(h: Header): int
  {
    if h.rowIndex != -1 then h.rowIndex + 1 else DefaultDataStart
  }

  /** A row is a header row exactly when the search for a name cell among
      its keys finds one. */
  lemma HeaderRowByIndex(row: Row)
    ensures IsHeaderRow(row) <==> FindIndex(RowKeys(row), IsNameKey) != -1
  {
    var keys := RowKeys(row);
    FindIndexSpec(keys, IsNameKey);
    assert forall i :: 0 <= i < |row| ==> keys[i] == CellKey(row[i]);
  }

  /** The header scan of lines 36-50: a loop over the first rows that fills in
      `headerRowIndex` and `colMap` at the first row with a name cell. */
  method LocateHeader(rows: seq<Row>) returns (headerRowIndex: int, colMap: ColumnMap)
    ensures Header(headerRowIndex, colMap) == FindHeader(rows)
  {
    headerRowIndex := -1;
    colMap := DefaultColumns;
    var limit := ScanLimit(rows);
    var i := 0;
    while i < limit
      invariant 0 <= i <= limit == ScanLimit(rows)
      invariant headerRowIndex == -1 && colMap == DefaultColumns
      invariant ScanFrom(rows, i) == FindHeader(rows)
    {
      var rowStr := RowKeys(rows[i]);
      var nameIdx := FindIndex(rowStr, IsNameKey);
      HeaderRowByIndex(rows[i]);
      if nameIdx != -1 {
        headerRowIndex := i;
        colMap := colMap.(name := nameIdx);
        colMap := colMap.(school := FindIndex(rowStr, IsSchoolKey));
        colMap := colMap.(grade := FindIndex(rowStr, IsGradeKey));
        colMap := colMap.(place := FindIndex(rowStr, IsPlaceKey));
        return;
      }
      i := i + 1;
    }
  }

  /** Every column of a found header is either -1 or a cell of the header
      row, and the name column always is a cell. */
  lemma HeaderColumnsInRange(rows: seq<Row>)
    requires FindHeader(rows).rowIndex != -1
    ensures 0 <= FindHeader(rows).rowIndex < |rows|
    ensures var h := FindHeader(rows);
      0 <= h.rowIndex < |rows| &&
      var n := |rows[h.rowIndex]|;
      && 0 <= h.cols.name < n
      && -1 <= h.cols.school < n && -1 <= h.cols.grade < n && -1 <= h.cols.place < n
      && DataStart(h) <= |rows|
  {
    ScanFromSpec(rows, 0);
    HeaderRowByIndex(rows[FindHeader(rows).rowIndex]);
  }

  /** A header row is looked for only among the first ten rows: a sheet whose
      first ten rows hold no name cell uses the default layout and row 5. */
  lemma NoHeaderInWindow(rows: seq<Row>)
    requires forall j :: 0 <= j < |rows| && j < HeaderWindow ==> !IsHeaderRow(rows[j])
    ensures FindHeader(rows) == Header(-1, DefaultColumns)
    ensures DataStart(FindHeader(rows)) == DefaultDataStart
  {
    ScanFromSpec(rows, 0);
  }
}
