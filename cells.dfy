/** Worksheet cells as the spreadsheet reader hands them over (rows of strings
    and numbers, blank cells filled with the empty string) and the JavaScript
    coercions the parser applies to them. */
module Cells {
  import opened JsText

  datatype Option<T> = None | Some(value: T)

  /** A cell value: a string or a number. Numbers are integers here. */
  datatype Cell = Text(s: string) | Number(n: int)

  type Row = seq<Cell>

  /** `String(c)` */
  function ToText(c: Cell): string
  {
    match c
    case Text(s) => s
    case Number(n) => IntDecimal(n)
  }

  /** JavaScript truthiness of a cell: the empty string and the number 0 are falsy. */
  predicate Truthy(c: Cell)
  {
    match c
    case Text(s) => s != ""
    case Number(n) => n != 0
  }

  /** `row[i]`: an index outside the row, including the "not found" index -1,
      reads `undefined`. */
  function CellAt(row: Row, i: int): Option<Cell>
  {
    if 0 <= i < |row| then Some(row[i]) else None
  }

  /** `String(row[i] || '')`: a missing cell, an empty string and the number 0
      all read as "". */
  function FieldText(row: Row, i: int): (r: string)
    ensures r == "" <==> (i < 0 || i >= |row| || !Truthy(row[i]))
    ensures r != "" ==> r == ToText(row[i])
  {
    match CellAt(row, i)
    case None => ""
    case Some(c) => if Truthy(c) then ToText(c) else ""
  }

  /** `s.findIndex(p)`: the first index whose element satisfies `p`, or -1. */
  function FindIndex<T>(s: seq<T>, p: T -> bool): (r: int)
    ensures -1 <= r < |s|
  {
    if s == [] then -1
    else if p(s[0]) then 0
    else
      var k := FindIndex(s[1..], p);
      if k == -1 then -1 else k + 1
  }

  /** The index found is the first that satisfies `p`; -1 means none does. */
  lemma {:induction false} FindIndexSpec<T>(s: seq<T>, p: T -> bool)
    ensures var r := FindIndex(s, p);
      && (r == -1 <==> forall i :: 0 <= i < |s| ==> !p(s[i]))
      && (r >= 0 ==> p(s[r]) && forall i :: 0 <= i < r ==> !p(s[i]))
  {
    if s != [] && !p(s[0]) {
      FindIndexSpec(s[1..], p);
      assert forall i :: 1 <= i < |s| ==> s[i] == s[1..][i - 1];
    }
  }

  /** A number cell reads "0" under `String(c)` but "" under `String(c || '')`. */
  lemma ZeroCellCollapses(row: Row, i: int)
    requires 0 <= i < |row| && row[i] == Number(0)
    ensures ToText(row[i]) == "0" && FieldText(row, i) == ""
  {
  }

  /** Every non-zero number cell reads as its decimal digits under both coercions. */
  lemma NumberCellReadsDigits(row: Row, i: int, n: nat)
    requires 0 <= i < |row| && row[i] == Number(n) && n != 0
    ensures FieldText(row, i) == NatDecimal(n)
    ensures DecimalValue(FieldText(row, i)) == n
  {
    NatDecimalRoundTrip(n);
  }
}
