# Scoreboard spreadsheet ingestion, modelled in Dafny

This project models `parseAndSaveExcel` from `lib/excel-parser.ts`, the
pipeline that turns an uploaded results workbook into stored results.
It reads each worksheet in order:

- A sheet with fewer than five rows is skipped.
- Row 2 gives the event name, after an optional case-insensitive `EVENT:`
  label is removed. A blank name skips the sheet.
- Row 2 also gives the category: the trimmed cell after the first
  "category" label, when its JavaScript `length` (in UTF-16 code units) is
  more than one. Otherwise the category is "General".
- The first row among the first ten that has a "student"/"name" cell is the
  header. It maps the name, school, grade and place columns. Without such a
  row the fixed layout (2, 4, 5, 6) applies and data starts at row 5.
- Each data row with a usable student name becomes a record:
  - the grade is upper-cased, and "1" means A;
  - the place is classified as First/Second/Third or kept as capitalised
    free text;
  - points are the place award plus the grade award, doubled for events
    whose name contains "GROUP".
- A non-empty batch replaces every stored record with the same
  (event name, category) key: `deleteMany` followed by `insertMany`.
- The function returns the number of records inserted and the list of
  events.

Modules, in dependency order:

- `JsText`: the JavaScript string operations the parser relies on. These
  are `trim` (with JavaScript's whitespace set), ASCII case mapping,
  `includes`, `length` in UTF-16 code units, and `String(n)` for integers.
- `Cells`: cells (string or integer), the `String(x || '')` coercion,
  `row[i]` outside the row, and `findIndex`.
- `Metadata`: the event name and the category from row 2.
- `Normalize`: the grade and place normalisation.
- `Scoring`: the group test and the points tables.
- `HeaderLocator`: the header search. The imperative loop `LocateHeader` is
  proved against the recursive `FindHeader`.
- `SheetRows`: the row loop. The imperative `CollectRows` is proved
  against the function `DataRecords`, with the well-formedness of every
  record.
- `ResultModel`: the stored record and replace-by-key semantics (`Keep`,
  `Select`, `Replace`).
- `Store`: the store as a class whose `records` field `DeleteMany` and
  `InsertMany` update in place.
- `Pipeline`: the per-sheet step `ProcessSheet` and the workbook loop
  `ParseAndSave`. Both are proved against functions over the workbook.
  The lemmas state what the store and the summary then satisfy: last write
  wins, untouched keys are kept, re-uploading is idempotent, and what
  `count` and `events` mean.

Two comments in `lib/excel-parser.ts` promise more than the code next to
them does. The model follows the code:

- Line 32 says the category is updated "only if it's not a single digit".
  The code tests the JavaScript `length` of the trimmed text instead. Any
  value one UTF-16 code unit long, digit or not, leaves "General": a label
  followed by "3" or by "x" gives "General". A single character beyond
  U+FFFF is two code units long, so it is taken as the category.
- Line 105 says a blank grade falls back to A "if place exists". The code
  falls back whatever the place is, and only when the record is built,
  after the points are computed. So the fallback A earns no grade points.
  The place "i" is the one exception: its branch (line 81) fills a blank
  grade with A before scoring.

Other behaviour of the code that the model keeps:

- Ordinal suffixes are not stripped. The place "1st" contains none of
  "fir", "seco", "thi" and is not "1", so it is stored as "1st" and earns
  no place points.
- The blank cells that the spreadsheet reader fills with `''`, the number
  0, and a column index of -1 all read as "" under `String(x || '')`.
  The header keys use `String(c)` alone, so a number cell 0 reads "0"
  there.

## Model

| member | source | states |
|---|---|---|
| JsText.TrimSpec | lib/excel-parser.ts:62-65 | `trim` returns a contiguous slice of its input with no whitespace at either end; the slice is empty exactly when the input is all whitespace |
| JsText.TrimOfTrimmed | lib/excel-parser.ts:62 | `trim` leaves a string without surrounding whitespace unchanged |
| JsText.TrimIdempotent | lib/excel-parser.ts:62 | trimming twice is trimming once |
| JsText.ContainsSpec | lib/excel-parser.ts:63 | `includes` holds exactly when the substring occurs at some position |
| JsText.IntDecimal | lib/excel-parser.ts:31 | `String(n)` is non-empty and starts with '-' exactly for negative `n` |
| JsText.Utf16LengthOfBmp | lib/excel-parser.ts:32 | a string with no character beyond U+FFFF has a JavaScript `length` equal to its number of characters |
| JsText.NatDecimalRoundTrip | lib/excel-parser.ts:31 | reading back the decimal text of a natural number gives the number, so distinct numbers give distinct texts |
| Cells.FieldText | lib/excel-parser.ts:62 | the cell text with falsy cells blanked is "" exactly when the index is outside the row or the cell is falsy; otherwise it is the cell's text |
| Cells.FindIndexSpec | lib/excel-parser.ts:41-47 | `findIndex` returns -1 exactly when no element matches; otherwise it returns the first matching index |
| Cells.ZeroCellCollapses | lib/excel-parser.ts:62 | a number cell 0 reads "0" under `String(c)` but "" once falsy cells are blanked |
| Cells.NumberCellReadsDigits | lib/excel-parser.ts:62 | a non-zero natural number cell reads as its decimal digits, which read back as the number |
| Metadata.EventLabelLengthSpec | lib/excel-parser.ts:24 | the anchored, greedy `^EVENT\s*:\s*` match is either a label followed by no more whitespace, or empty exactly when no prefix of the text is a label |
| Metadata.EventNameSpec | lib/excel-parser.ts:22-25 | the event name is trimmed; it is blank exactly when the text after the label is all whitespace; it is the trimmed first cell, with a leading label cut off only when there is one |
| Metadata.CategorySpec | lib/excel-parser.ts:28-33 | the category is the trimmed cell after the first "category" label when its JavaScript `length` is more than 1, and "General" otherwise; it is always non-blank, trimmed and at least two UTF-16 code units long |
| Metadata.GeneralIsACategory | lib/excel-parser.ts:28 | the default "General" is trimmed and seven code units long |
| Metadata.NumericCategory | lib/excel-parser.ts:30-32 | a number 0-9 after the label leaves "General"; a number of 10 or more becomes the category as its decimal text |
| Metadata.AstralCategory | lib/excel-parser.ts:30-32 | a single character beyond U+FFFF after the label, two code units long, becomes the category |
| Normalize.NormalizeGradeSpec | lib/excel-parser.ts:68-70 | the grade has no lower-case letter and no surrounding whitespace; it is blank exactly when the cell is blank; "1" becomes "A"; any other grade is the trimmed cell up to letter case: same length, same text once both are lower-cased |
| Normalize.UpperFacts | lib/excel-parser.ts:68 | `toUpperCase` keeps the length and whitespace, leaves no lower-case letter, does not change the lower-cased text, and gives "1" only from "1" |
| Normalize.PlaceTokenSpec | lib/excel-parser.ts:73 | the place token has no upper-case letter; when the lower-cased trimmed cell starts with '-' it is that text with the '-' removed, otherwise it is that text unchanged |
| Normalize.TrimmedToken | lib/excel-parser.ts:73 | for a cell with no surrounding whitespace, the token is the lower-cased cell less one leading '-' |
| Normalize.LowerCapitalize | lib/excel-parser.ts:84 | lower-casing undoes the capitalisation of a lower-case token |
| Normalize.NormalizePlaceSpec | lib/excel-parser.ts:73-85 | each of First/Second/Third results exactly when its test is the first one the token passes, "i" counting as First; any other token is kept, its first character upper-cased and the rest unchanged; the grade changes only for "i" with a blank grade, to "A" |
| Normalize.PlaceNamesMeanThemselves | lib/excel-parser.ts:76-78 | lower-cased, "First", "Second" and "Third" pass the tests for their own place |
| Normalize.HyphenatedFirst | lib/excel-parser.ts:73-76 | "-FIRST" normalises to First |
| Normalize.RomanOne | lib/excel-parser.ts:79-82 | "I" normalises to First and fills a blank grade with "A", keeping any other grade |
| Normalize.OrdinalNotStripped | lib/excel-parser.ts:76-85 | "1st" is kept as "1st" |
| Normalize.FreeTextPlace | lib/excel-parser.ts:83-85 | the free text "NIL" is stored as "Nil" |
| Normalize.BlankPlace | lib/excel-parser.ts:73-85 | a blank place cell stays blank and leaves the grade alone |
| Normalize.GradeExamples | lib/excel-parser.ts:68-70 | " b " becomes "B", "1" becomes "A", and an all-blank grade becomes "" |
| Scoring.AnyKeyword | lib/excel-parser.ts:52 | `keywords.some(k => s.includes(k))` holds exactly when some keyword occurs in the text |
| Scoring.IsGroupSpec | lib/excel-parser.ts:52 | an event is a group event exactly when its upper-cased name contains "GROUP" |
| Scoring.Points | lib/excel-parser.ts:88-107 | points are at most twice the top award; they reach that maximum exactly for First with grade A; they are zero exactly when neither the place nor the grade is an award |
| Scoring.PlaceAndGradeTablesAgree | lib/excel-parser.ts:91-97 | First pays what A pays, Second what B pays and Third what C pays, and First is the top award |
| Scoring.GroupPaysDouble | lib/excel-parser.ts:91-97 | a group event pays exactly twice the individual points for every place and grade |
| Scoring.AwardsAreOrdered | lib/excel-parser.ts:91-97 | First > Second > Third > anything else, and A > B > C > anything else |
| Scoring.GroupOppanaExample | lib/excel-parser.ts:52 | "Group Oppana" is a group event, and Second with grade B there earns 12 |
| HeaderLocator.ScanFromSpec | lib/excel-parser.ts:39-50 | the search finds the first row with a name cell within `min(rows, 10)`, with that row's column map; it reports -1 and the default layout exactly when there is none |
| HeaderLocator.HeaderRowByIndex | lib/excel-parser.ts:40-42 | a row's `findIndex` for a name key is not -1 exactly when some cell's key is a name key |
| HeaderLocator.LocateHeader | lib/excel-parser.ts:36-50 | the imperative header loop returns the header row and the column map of the search |
| HeaderLocator.HeaderColumnsInRange | lib/excel-parser.ts:41-56 | with a header found, the name column is a cell of the header row, the other columns are -1 or cells of it, and data starts within the sheet |
| HeaderLocator.NoHeaderInWindow | lib/excel-parser.ts:36-56 | without a name cell in the first ten rows, the default layout applies and data starts at row 5 |
| ResultModel.Keep | lib/excel-parser.ts:112 | what `deleteMany` leaves: exactly the records whose key is not deleted |
| ResultModel.Select | lib/excel-parser.ts:112 | the records a key matches: exactly those with that key |
| ResultModel.KeepKeep | lib/excel-parser.ts:112 | deleting one set of keys and then another is deleting both |
| ResultModel.SelectKeep | lib/excel-parser.ts:112 | after deleting a key nothing with it is left, and the records of every other key are unchanged |
| ResultModel.ReplaceSpec | lib/excel-parser.ts:111-113 | after delete-then-insert the key holds exactly the new batch, in order; all other records are those that were there before |
| ResultModel.ReplaceIdempotent | lib/excel-parser.ts:111-113 | replacing a key by the same batch twice is replacing it once |
| SheetRows.CollectRows | lib/excel-parser.ts:58-109 | the imperative row loop returns the batch `DataRecords` specifies |
| SheetRows.RowRecordWellFormed | lib/excel-parser.ts:59-108 | a row that is not skipped gives a record that carries the sheet's name, event and category and a trimmed name without "name of" in it; its school is trimmed; its grade is non-blank with no lower-case letter; its points are within bounds and match either its place and grade, or its place alone when a blank grade fell back to "A" |
| SheetRows.RecordsWellFormed | lib/excel-parser.ts:58-109 | every record of a batch is well-formed and carries the sheet's replace key |
| SheetRows.RecordsEmpty | lib/excel-parser.ts:58-111 | a batch is empty exactly when every row of its range is skipped |
| SheetRows.MissingColumns | lib/excel-parser.ts:62-107 | without school, grade and place columns a record has school "", grade "A", place "" and 0 points |
| SheetRows.BlankGradeFallback | lib/excel-parser.ts:79-105 | a grade cell that is blank or whitespace only is stored as "A" but earns only place points, except with the place "i", which earns First and A |
| Store.ResultStore.DeleteMany | lib/excel-parser.ts:112 | the store keeps exactly the records of the other keys, in order, and nothing with the key is left |
| Store.ResultStore.InsertMany | lib/excel-parser.ts:113 | the batch is appended to the store |
| Pipeline.EventListConcat | lib/excel-parser.ts:115 | the event list of two runs of uploads is the first run's list followed by the second's, so `events` only grows at its end |
| Pipeline.AppendUpload | lib/excel-parser.ts:111-116 | one more upload adds one replace, its batch length to the count, and its event name to the list |
| Pipeline.SheetStep | lib/excel-parser.ts:111-116 | a sheet without records changes neither the store nor the summary; a sheet with records adds one replace, its count and its event |
| Pipeline.ProcessSheet | lib/excel-parser.ts:16-116 | the per-sheet work returns the upload `SheetUpload` specifies |
| Pipeline.ParseAndSave | lib/excel-parser.ts:5-120 | the store ends as every sheet's batch replacing its key in sheet order; the summary reports success, the sum of the batch lengths and the event names in order |
| Pipeline.SheetUploadSpec | lib/excel-parser.ts:19-113 | a sheet uploads exactly when it has at least five rows, a non-blank event name and a data row that is not skipped; the upload's key is row 2's event name and category, and its batch is non-empty, well-formed and carries that key |
| Pipeline.SkippedSheet | lib/excel-parser.ts:19-25 | a sheet with fewer than five rows, or whose event cell is blank once the label is cut, uploads nothing |
| Pipeline.UploadWellKeyed | lib/excel-parser.ts:99-113 | one sheet's upload has a non-empty batch carrying its key and a non-blank, trimmed event name |
| Pipeline.UploadsWellKeyed | lib/excel-parser.ts:15-116 | every upload of a workbook is well keyed |
| Pipeline.LastBatch | lib/excel-parser.ts:111-113 | there is a last batch for a key exactly when some upload has the key; it is that of the last such upload |
| Pipeline.ApplyAllSelect | lib/excel-parser.ts:15-117 | last write wins: afterwards a key holds the batch of the last upload with it, or its old records when no upload has it |
| Pipeline.UntouchedKey | lib/excel-parser.ts:112 | a key that no sheet uploads keeps its stored records |
| Pipeline.ApplyAllShape | lib/excel-parser.ts:15-117 | the store afterwards is the old records of untouched keys, in order, followed by what the uploads leave in an empty store |
| Pipeline.KeysOfAppend | lib/excel-parser.ts:111-113 | one more upload adds exactly its key to the keys the uploads touch |
| Pipeline.ApplyAllKeys | lib/excel-parser.ts:111-113 | the uploads put only their own keys into an empty store |
| Pipeline.ReuploadIdempotent | lib/excel-parser.ts:111-113 | uploading the same workbook twice leaves the store as uploading it once |
| Pipeline.CountWhenKeysDistinct | lib/excel-parser.ts:114 | when no two sheets share a key, `count` equals the number of records the uploads put in an empty store |
| Pipeline.RepeatedKey | lib/excel-parser.ts:111-115 | two sheets with the same key: only the later batch stays, yet `count` adds both batches and `events` lists the name twice |
| Pipeline.CountAtLeastEvents | lib/excel-parser.ts:114-115 | every listed event counts at least one record |
| Pipeline.SummaryFacts | lib/excel-parser.ts:111-119 | in a workbook's summary, `count` is at least the number of events, and every event is a non-blank trimmed name |

## Left out

- Reading the workbook (`XLSX.read`, `sheet_to_json`, lines 8-17) is not
  modelled. A workbook is given as named sheets of rows, with blank cells
  already read as "". Rows are never missing, so the `!row` test and the
  `rows[2] || []` fallback cannot fire.
- Only strings and integers are modelled as cell values. Fractional
  numbers, booleans and dates are left out.
- `String(n)` for magnitudes of 1e21 and more, which JavaScript writes in
  exponent form, is not modelled. Integers are unbounded.
- `Lower` and `Upper` map ASCII letters only. JavaScript's `toLowerCase`
  and `toUpperCase` also map other letters, so grades, places and names
  with non-ASCII letters may compare differently. The case-insensitive
  `EVENT` match is exact, because a non-unicode JavaScript regular
  expression folds no non-ASCII letter onto an ASCII one.
- `dbConnect`, the database and Mongoose schema validation are not
  modelled. In particular, `models/Result.ts` requires `school`, so a blank
  school would make `insertMany` fail.
- Failures of the awaited store calls are left out. The store calls always
  succeed. A failing `insertMany` after a successful `deleteMany`, which
  would leave the key deleted, is not modelled.
- Concurrent uploads are out of scope. The model is one upload at a time,
  so the race between two uploads' delete and insert pairs is not
  captured.
- The API routes and the pages that call the parser or show the
  leaderboard are not part of this model.
- The schema fields `chestNo` and `className`, which the parser never
  sets, are not part of the record. Neither are the timestamps.
