# A verified model of the NEB worksheet directive interpreter

The modelled service reads budget worksheets (Apache POI workbooks) under the control of a
small directive language:

- `SHEET("…")` picks the default sheet;
- `FIX`, `COLUMN`, `COUNT`, `ROW` and `ROWBY` bind output variables;
- `CHKDUPLICATE` and `CHKSHEETDUPLICATE` request duplicate checks on one file;
- `CROSSFILEDUPLICATED` and `CROSSFILECOMPARE` compare two files.

The service answers with a `wssResult` envelope. It holds the bound data, a `success` or
`fail` status and a fixed taxonomy of error codes. A separate utility class, `ExcelUtil`,
reads single cells, turns ranges and sheets into records, finds duplicate rows in a
column and counts matching cells.

The model is split into modules that follow the Java classes:

| module | file | models |
|---|---|---|
| `Outcomes` | outcomes.dfy | the exceptions the code throws, as `Result`/`Option` values |
| `Strings` | strings.dfy | the `java.lang.String`/`Integer` operations used: `trim`, `split`, `parseInt`, case mapping |
| `Cells` | cells.dfy | workbooks, sheets, rows and cells as POI presents them; `A1` references and base-26 column letters |
| `Tokenizer` | tokenizer.dfy | the shared character scanner behind every directive splitter (quote flag, bracket and parenthesis depth) |
| `ExtractParams` | extract_params.dfy | `ExtractParams.java`: every splitter, as a loop proved against a specification function |
| `ExcelReader` | excel_reader.dfy | `getCellValue`, `isEmpty`, `readCellValue`, range parsing with the `EOF` sentinel, `countNonEmptyCells`, `countCells` |
| `RangeScans` | range_scans.dfy | `getAllValuesInRange` and `checkDuplicateValuesInRange` |
| `RowReads` | row_reads.dfy | `findRowByConditionAndReadColumns`, `extractColumnRef`, `extractFirstPart`, `readRowsAndColumns(WithMapping)` |
| `Variables` | variables.dfy | `readExcelVariables`: per-variable evaluation and error folding |
| `DirectiveBinding` | directive_binding.dfy | the directive dispatch loop of `processExcelToWssResult` |
| `WorkSheetService` | worksheet_service.dfy | the validation loop, the cross-sheet intersection and the status/error-code report |
| `CrossFile` | cross_file.dfy | `processMutiFileExcelToWssResult`, `checkCrossFileEqualCondition`, `checkCrossCompare` |
| `ExcelUtilities` | excel_util.dfy | the `ExcelUtil` class: column letters, `readCellValue`, `readRangeToJson`, `readSheetToJson`, `findDuplicates`, `countItems` |

Every loop of the Java code is a Dafny `method` with a loop. Its `ensures` ties the
result to a specification function. The lemmas beside that function state what the source
promises: which commas split, which rows are emitted, which values are reported as
duplicates, which error code is chosen.

`ExcelUtil` is a `class` whose `workbook` is set once by the constructor and only read
afterwards. The static Java utilities are module-level functions and methods. The
workbook is an immutable value: a map from sheet name to sheet. A sheet holds
`firstRowNum`, `lastRowNum` and a map of rows. A row holds `lastCellNum` and a map of
cells. An absent row or cell is POI's `null`.

Where Java iterates a `HashMap` or `HashSet`, the iteration order is a parameter
(`keyOrder`, `validateOrder`) that must list the collection. The lemmas show that the
outcome's status and error code do not depend on that order. The two `HashSet`s of
values in `checkCrossFileEqualCondition` and `checkCrossCompare` are given the order in
which the range scan first meets each value. No other order needs modelling there:
`EqualConditionExactly` states the shared values by membership, and
`DecimalSumOrderFree` and `DistinctSumIsSetSum` show that the sum is the same in every
order.

The cross-file service has two readings. `AsWritten` runs the code as it is, including
the two defects under "## Findings"; the service's methods are proved against this
reading. `Corrected` runs the same service on the corrected halves of those findings
(`ExtractParams.CrossFileCompare` and `CrossFile.CrossCompare`).

## Model

| member | source | states |
|---|---|---|
| Tokenizer.ScanChar | src/main/java/th/go/bb/neb/prescreening/logic/nebworksheetservice/utils/ExtractParams.java:37-56 | one scanner step: a `"` flips the quote flag, brackets and parentheses move their depth counters, and a comma cuts only outside quotes at depth zero in every counter the splitter tracks |
| Tokenizer.SplitTopLevel | src/main/java/th/go/bb/neb/prescreening/logic/nebworksheetservice/utils/ExtractParams.java:37-61 | the character loop emits exactly the pieces of the specification split, the text after the last cut only when it is non-empty |
| Tokenizer.LastCutShape | src/main/java/th/go/bb/neb/prescreening/logic/nebworksheetservice/utils/ExtractParams.java:49-52 | the position found as the last cut is a real cut and no cut lies after it |
| Tokenizer.PiecesSnoc | src/main/java/th/go/bb/neb/prescreening/logic/nebworksheetservice/utils/ExtractParams.java:37-56 | appending one character either opens a new empty piece (a top-level comma) or extends the current piece |
| Tokenizer.JoinPieces | src/main/java/th/go/bb/neb/prescreening/logic/nebworksheetservice/utils/ExtractParams.java:37-61 | splitting loses no character: joining the pieces with commas gives back the input |
| Tokenizer.PiecesCount | src/main/java/th/go/bb/neb/prescreening/logic/nebworksheetservice/utils/ExtractParams.java:49-61 | there is one piece more than there are top-level commas |
| Tokenizer.Unsplit | src/main/java/th/go/bb/neb/prescreening/logic/nebworksheetservice/utils/ExtractParams.java:49 | a text with no top-level comma is a single piece |
| Tokenizer.Wrapped | src/main/java/th/go/bb/neb/prescreening/logic/nebworksheetservice/utils/ExtractParams.java:40-49 | a comma inside one pair of quotes, brackets or tracked parentheses never splits |
| Tokenizer.PiecesConcat | src/main/java/th/go/bb/neb/prescreening/logic/nebworksheetservice/utils/ExtractParams.java:49-52 | after a balanced prefix, the pieces of `a,b` are those of `a` followed by those of `b` |
| Tokenizer.QuotedQuotedArray | src/main/java/th/go/bb/neb/prescreening/logic/nebworksheetservice/utils/ExtractParams.java:37-61 | the documented shape `"a","b,c",["d,e","f"]` splits into exactly three pieces |
| Tokenizer.TrailingComma | src/main/java/th/go/bb/neb/prescreening/logic/nebworksheetservice/utils/ExtractParams.java:59-61 | a trailing comma adds no piece, while a trailing `, ` adds the piece `" "` |
| Tokenizer.FirstPieceKeepsPrefix | src/main/java/th/go/bb/neb/prescreening/logic/nebworksheetservice/utils/ExtractParams.java:280-301 | a comma-free prefix of the text stays at the head of the first piece |
| ExtractParams.MatchAt | src/main/java/th/go/bb/neb/prescreening/logic/nebworksheetservice/utils/ExtractParams.java:15-19 | a match at a position is `COMMAND("name")` with a non-empty, quote-free name |
| ExtractParams.ExtractStringParam | src/main/java/th/go/bb/neb/prescreening/logic/nebworksheetservice/utils/ExtractParams.java:14-22 | the result never contains a quote |
| ExtractParams.StringParamOfDirective | src/main/java/th/go/bb/neb/prescreening/logic/nebworksheetservice/utils/ExtractParams.java:14-22 | `COMMAND("name")…` yields `name` |
| ExtractParams.StringParamWithoutCommand | src/main/java/th/go/bb/neb/prescreening/logic/nebworksheetservice/utils/ExtractParams.java:18-21 | with no `COMMAND("` in the text the result is `""` |
| ExtractParams.Unquote | src/main/java/th/go/bb/neb/prescreening/logic/nebworksheetservice/utils/ExtractParams.java:66-67 | a piece both starting and ending with `"` loses exactly that pair; the lone piece `"` throws StringIndexOutOfBounds; any other piece is kept |
| ExtractParams.Trimmed | src/main/java/th/go/bb/neb/prescreening/logic/nebworksheetservice/utils/ExtractParams.java:51 | every piece is trimmed, one for one |
| ExtractParams.UnquoteAll | src/main/java/th/go/bb/neb/prescreening/logic/nebworksheetservice/utils/ExtractParams.java:64-69 | the pass succeeds iff no piece is a lone `"`, and then unquotes each piece in place |
| ExtractParams.TrimAndUnquote | src/main/java/th/go/bb/neb/prescreening/logic/nebworksheetservice/utils/ExtractParams.java:51-69 | the in-place pass over the list returns `CleanPieces`: each piece trimmed and stripped of one outer quote pair, or the StringIndexOutOfBounds of a lone `"` |
| ExtractParams.ExtractMultipleParams | src/main/java/th/go/bb/neb/prescreening/logic/nebworksheetservice/utils/ExtractParams.java:28-72 | returns `MultipleParams`: the top-level comma pieces of the text after `COMMAND(`, cleaned one for one (see `MultipleParamsPieces`) |
| ExtractParams.MultipleParamsPieces | src/main/java/th/go/bb/neb/prescreening/logic/nebworksheetservice/utils/ExtractParams.java:37-69 | one parameter per top-level comma plus a last one when the tail is non-empty; each is the trimmed piece with at most one outer quote pair removed |
| ExtractParams.CleanQuoted | src/main/java/th/go/bb/neb/prescreening/logic/nebworksheetservice/utils/ExtractParams.java:64-69 | a quoted value comes back without its quotes |
| ExtractParams.CleanBracketed | src/main/java/th/go/bb/neb/prescreening/logic/nebworksheetservice/utils/ExtractParams.java:64-69 | a bracketed array is kept as it is |
| ExtractParams.CleanPiecesOf | src/main/java/th/go/bb/neb/prescreening/logic/nebworksheetservice/utils/ExtractParams.java:51-69 | pieces that are already trimmed clean to their unquoted values |
| ExtractParams.MultipleParamsOfShape | src/main/java/th/go/bb/neb/prescreening/logic/nebworksheetservice/utils/ExtractParams.java:28-72 | `CMD("x","y",[z])` yields exactly `x`, `y` and `[z]`, whatever commas `z` holds |
| ExtractParams.ArrayParam | src/main/java/th/go/bb/neb/prescreening/logic/nebworksheetservice/utils/ExtractParams.java:79-81 | a text not enclosed in `[`…`]` gives the empty array |
| ExtractParams.ExtractArrayParam | src/main/java/th/go/bb/neb/prescreening/logic/nebworksheetservice/utils/ExtractParams.java:78-119 | returns `ArrayParam`: `[]` for a text not in brackets, else the quote-aware pieces of the inner text, trimmed and unquoted |
| ExtractParams.ArrayOfTwo | src/main/java/th/go/bb/neb/prescreening/logic/nebworksheetservice/utils/ExtractParams.java:84-118 | `["x","y"]` yields exactly `x` and `y` |
| ExtractParams.TupleConfig | src/main/java/th/go/bb/neb/prescreening/logic/nebworksheetservice/utils/ExtractParams.java:172-236 | a tuple not in parentheses, or with fewer than two fields, is dropped; otherwise `rangeStr` is the second field and `exceptValues` is present iff a third field exists and is not `NULL` |
| ExtractParams.ParseSheetTuple | src/main/java/th/go/bb/neb/prescreening/logic/nebworksheetservice/utils/ExtractParams.java:172-236 | returns `TupleConfig`: the tuple's sheet config, or nothing for a tuple the source skips |
| ExtractParams.ExtractSheetConfigs | src/main/java/th/go/bb/neb/prescreening/logic/nebworksheetservice/utils/ExtractParams.java:126-241 | returns `SheetConfigs`: one config per well-formed `(sheet, range[, except])` tuple of the directive, in order |
| ExtractParams.CleanField | src/main/java/th/go/bb/neb/prescreening/logic/nebworksheetservice/utils/ExtractParams.java:327-340 | a field of a cross-file tuple contains no `"` and is never longer than the raw piece |
| ExtractParams.TupleParts | src/main/java/th/go/bb/neb/prescreening/logic/nebworksheetservice/utils/ExtractParams.java:323-340 | one field per piece of the quote-aware split, each cleaned |
| ExtractParams.CrossFileTuple | src/main/java/th/go/bb/neb/prescreening/logic/nebworksheetservice/utils/ExtractParams.java:317-351 | throws exactly when there are fewer than three fields, with the source's message; otherwise fileName, sheetName and rangeStr are quote-free |
| ExtractParams.ParseCrossFileTuple | src/main/java/th/go/bb/neb/prescreening/logic/nebworksheetservice/utils/ExtractParams.java:317-351 | returns `CrossFileTuple`: the file config of the tuple, or the fewer-than-three-fields error |
| ExtractParams.SplitTupleFields | src/main/java/th/go/bb/neb/prescreening/logic/nebworksheetservice/utils/ExtractParams.java:323-340 | returns `TupleParts`: the cleaned fields of the tuple, one per quote-aware piece |
| ExtractParams.TupleOfPlain | src/main/java/th/go/bb/neb/prescreening/logic/nebworksheetservice/utils/ExtractParams.java:317-351 | `["f","s","r"]` yields the config `(f, s, r)` |
| ExtractParams.DirectiveHeader | src/main/java/th/go/bb/neb/prescreening/logic/nebworksheetservice/utils/ExtractParams.java:246-273 | the corrected header check: a condition is present iff the kind is CROSSFILECOMPARE; a CROSSFILEDUPLICATED directive succeeds iff it is enclosed in `CROSSFILEDUPLICATED(` and `)`, and then its array part is the trimmed text between them; every failure is an IllegalArgumentException; an unknown kind passes the whole text through |
| ExtractParams.ParseDirectiveHeader | src/main/java/th/go/bb/neb/prescreening/logic/nebworksheetservice/utils/ExtractParams.java:246-273 | returns `DirectiveHeaderAsWritten`: the header as the code computes it, so a CROSSFILEDUPLICATED directive keeps the whole text as its array part |
| ExtractParams.CrossFileCompare | src/main/java/th/go/bb/neb/prescreening/logic/nebworksheetservice/utils/ExtractParams.java:243-315 | `condition` is present iff the kind is CROSSFILECOMPARE; any failure comes from the header or from a tuple |
| ExtractParams.ExtractCrossFileCompare | src/main/java/th/go/bb/neb/prescreening/logic/nebworksheetservice/utils/ExtractParams.java:243-315 | returns `CrossFileCompareAsWritten`: the header as written, then one file config per non-empty tuple |
| ExtractParams.CollectFileConfigs | src/main/java/th/go/bb/neb/prescreening/logic/nebworksheetservice/utils/ExtractParams.java:275-308 | returns `FileConfigsOf`: the configs of the tuples of the array part, in order, tuples blank after trimming skipped, or the first tuple's error |
| ExtractParams.DuplicatedHeader | src/main/java/th/go/bb/neb/prescreening/logic/nebworksheetservice/utils/ExtractParams.java:262-264 | in the corrected header, a CROSSFILEDUPLICATED directive's array part is the text between its parentheses |
| ExtractParams.DuplicatedReadsTuples | src/main/java/th/go/bb/neb/prescreening/logic/nebworksheetservice/utils/ExtractParams.java:243-315 | (corrected) a two-tuple CROSSFILEDUPLICATED directive yields exactly its two configs |
| ExtractParams.CrossFileCompareAsWritten | src/main/java/th/go/bb/neb/prescreening/logic/nebworksheetservice/utils/ExtractParams.java:243-315 | as written, the two kinds agree except for CROSSFILEDUPLICATED |
| ExtractParams.DirectiveHeaderAsWritten | src/main/java/th/go/bb/neb/prescreening/logic/nebworksheetservice/utils/ExtractParams.java:246-268 | as written, CROSSFILEDUPLICATED keeps the whole directive as its array part |
| ExtractParams.DuplicatedAsWrittenKeepsKeyword | src/main/java/th/go/bb/neb/prescreening/logic/nebworksheetservice/utils/ExtractParams.java:246-308 | as written, the first parsed file name starts with `CROSSFILEDUPLICATED(` |
| ExtractParams.DuplicatedAsWrittenDiffers | src/main/java/th/go/bb/neb/prescreening/logic/nebworksheetservice/utils/ExtractParams.java:246-308 | as written, the result differs from the corrected one whenever the corrected one parses a plain first file name |
| ExtractParams.KeywordNotPlain | src/main/java/th/go/bb/neb/prescreening/logic/nebworksheetservice/utils/ExtractParams.java:262-268 | a file name that still begins with `CROSSFILEDUPLICATED(` is never a plain file name |
| ExtractParams.DuplicatedExampleDiffers | src/main/java/th/go/bb/neb/prescreening/logic/nebworksheetservice/utils/ExtractParams.java:243-315 | a concrete two-tuple directive on which the two versions differ |
| Cells.CellAt | src/main/java/th/go/bb/neb/prescreening/logic/nebworksheetservice/utils/ExcelReader.java:465-478 | a cell is present iff its row is present, the index is non-negative and the row holds the cell |
| Cells.DoubleToString | src/main/java/th/go/bb/neb/prescreening/logic/nebworksheetservice/utils/ExcelReader.java:1094-1095 | `Double.toString` of a whole number below 10^7 is its digits plus `.0`; larger ones use `E` notation |
| Cells.ColString | src/main/java/th/go/bb/neb/prescreening/logic/nebworksheetservice/utils/ExcelReader.java:1205 | `convertNumToColString` gives a non-empty string of capital letters |
| Cells.ColumnExamples | src/main/java/th/go/bb/neb/prescreening/logic/nebworksheetservice/utils/ExcelUtil.java:64-68 | A→0, Z→25, AA→26, AZ→51, and lower case reads the same |
| Cells.ColumnIndexOfColString | src/main/java/th/go/bb/neb/prescreening/logic/nebworksheetservice/utils/ExcelReader.java:1205 | column letters read back to the column they came from |
| Cells.ColStringOfColumnIndex | src/main/java/th/go/bb/neb/prescreening/logic/nebworksheetservice/utils/ExcelReader.java:828-829 | capital column letters are the letters of the column they denote |
| Cells.ColumnIndexIgnoresCase | src/main/java/th/go/bb/neb/prescreening/logic/nebworksheetservice/utils/ExcelUtil.java:65 | upper-casing does not change the column index |
| Cells.CellNameRoundTrip | src/main/java/th/go/bb/neb/prescreening/logic/nebworksheetservice/utils/ExcelReader.java:458-459 | the name of a cell is a single-cell reference that reads back to its column and row |
| ExcelReader.GetCellValue | src/main/java/th/go/bb/neb/prescreening/logic/nebworksheetservice/utils/ExcelReader.java:483-523 | null exactly for a missing, blank or error cell; an Integer exactly for a whole numeric cell, holding the `(long)` cast of the number: equal to it iff it fits in a long, saturated to the long bounds otherwise; a whole Double only from a formula |
| ExcelReader.LongCast | src/main/java/th/go/bb/neb/prescreening/logic/nebworksheetservice/utils/ExcelReader.java:497-501 | the `(long)` cast of a whole number is always a long; it is the number itself iff the number fits, and the nearest bound otherwise |
| ExcelReader.NonEmptyValue | src/main/java/th/go/bb/neb/prescreening/logic/nebworksheetservice/utils/ExcelReader.java:596-609 | a non-empty cell has a null value only when it is an error cell, and a non-empty string cell has non-blank text |
| ExcelReader.CellReference | src/main/java/th/go/bb/neb/prescreening/logic/nebworksheetservice/utils/ExcelReader.java:466 | a reference that is not letters-then-digits is unsupported; a row beyond Integer range fails; otherwise the reference's column and 0-based row |
| ExcelReader.ReadCellValue | src/main/java/th/go/bb/neb/prescreening/logic/nebworksheetservice/utils/ExcelReader.java:465-478 | a successful read is the value of the referenced cell |
| ExcelReader.ReadCellValueOfCellName | src/main/java/th/go/bb/neb/prescreening/logic/nebworksheetservice/utils/ExcelReader.java:465-478 | reading a cell by its name gives that cell's value |
| ExcelReader.ParseRange | src/main/java/th/go/bb/neb/prescreening/logic/nebworksheetservice/utils/ExcelReader.java:530-576 | a range not splitting on `:` into two parts is refused with the source's message; otherwise the start is a cell reference; the end is `EOF` (any case) or a reference; every failure is an IllegalArgumentException |
| ExcelReader.ParseRangeOfRefs | src/main/java/th/go/bb/neb/prescreening/logic/nebworksheetservice/utils/ExcelReader.java:530-576 | `A:B` of two references parses to their rows and columns |
| ExcelReader.ParseRangeOfRefEof | src/main/java/th/go/bb/neb/prescreening/logic/nebworksheetservice/utils/ExcelReader.java:550 | `A:EOF` parses to an open range from `A` |
| ExcelReader.ParseRangeOfNames | src/main/java/th/go/bb/neb/prescreening/logic/nebworksheetservice/utils/ExcelReader.java:530-576 | the range between two cell names parses back to their rows and columns |
| ExcelReader.ParseRangeOfEof | src/main/java/th/go/bb/neb/prescreening/logic/nebworksheetservice/utils/ExcelReader.java:550 | `name:EOF` parses back to the cell's row and column |
| ExcelReader.LastDataRow | src/main/java/th/go/bb/neb/prescreening/logic/nebworksheetservice/utils/ExcelReader.java:550-568 | the end row is the largest row in the scan window whose start-column cell is non-empty, or none when no such row exists |
| ExcelReader.FindLastDataRow | src/main/java/th/go/bb/neb/prescreening/logic/nebworksheetservice/utils/ExcelReader.java:552-564 | the downward loop with `break` finds the last data row |
| ExcelReader.CountData | src/main/java/th/go/bb/neb/prescreening/logic/nebworksheetservice/utils/ExcelReader.java:579-588 | the count never exceeds the number of rows scanned |
| ExcelReader.CountDataIsSize | src/main/java/th/go/bb/neb/prescreening/logic/nebworksheetservice/utils/ExcelReader.java:579-588 | the count is the number of rows whose start-column cell is non-empty |
| ExcelReader.NonEmptyCount | src/main/java/th/go/bb/neb/prescreening/logic/nebworksheetservice/utils/ExcelReader.java:528-591 | a bad range fails with the parser's error; a count is never negative |
| ExcelReader.EofCountsToLastRow | src/main/java/th/go/bb/neb/prescreening/logic/nebworksheetservice/utils/ExcelReader.java:550-590 | with `EOF`, the count is the number of start-column cells holding data from the start row to the last row of the sheet |
| ExcelReader.ExplicitCountsRows | src/main/java/th/go/bb/neb/prescreening/logic/nebworksheetservice/utils/ExcelReader.java:569-590 | with an explicit end, only start-column cells are counted and the end's column is ignored |
| ExcelReader.CountNonEmptyCells | src/main/java/th/go/bb/neb/prescreening/logic/nebworksheetservice/utils/ExcelReader.java:528-591 | returns `NonEmptyCount`: the range error, or the number of start-column cells with data between the start row and the end (or last data) row |
| ExcelReader.CountRows | src/main/java/th/go/bb/neb/prescreening/logic/nebworksheetservice/utils/ExcelReader.java:579-588 | returns `CountData`: the number of rows in the window whose cell in the column is non-empty |
| ExcelReader.GetSheet | src/main/java/th/go/bb/neb/prescreening/logic/nebworksheetservice/utils/ExcelReader.java:407-410 | a sheet is found iff it exists; otherwise the source's sheet-not-found message |
| ExcelReader.CountCells | src/main/java/th/go/bb/neb/prescreening/logic/nebworksheetservice/utils/ExcelReader.java:428-453 | a non-Excel file name is refused; a missing sheet gives sheet-not-found; otherwise the count of the named sheet |
| ExcelReader.ReadCellValueIn | src/main/java/th/go/bb/neb/prescreening/logic/nebworksheetservice/utils/ExcelReader.java:392-417 | a missing sheet gives sheet-not-found; otherwise the cell read of that sheet |
| RangeScans.RowDataExactly | src/main/java/th/go/bb/neb/prescreening/logic/nebworksheetservice/utils/ExcelReader.java:1090-1092 | the positions scanned in a row are exactly its non-empty cells between the two columns |
| RangeScans.RectDataExactly | src/main/java/th/go/bb/neb/prescreening/logic/nebworksheetservice/utils/ExcelReader.java:1086-1092 | the positions scanned in a rectangle are exactly its non-empty cells |
| RangeScans.RangeBounds | src/main/java/th/go/bb/neb/prescreening/logic/nebworksheetservice/utils/ExcelReader.java:1045-1080 | an explicit range is its own rectangle; an `EOF` range has no rectangle iff there is no data row, and otherwise is one column wide |
| RangeScans.ScanBounds | src/main/java/th/go/bb/neb/prescreening/logic/nebworksheetservice/utils/ExcelReader.java:1045-1080 | returns `RangeBounds`: the clipped rectangle the scan visits, or none when the range covers no row |
| RangeScans.EofBoundsCoverData | src/main/java/th/go/bb/neb/prescreening/logic/nebworksheetservice/utils/ExcelReader.java:1048-1068 | an `EOF` rectangle covers every data row of the start column |
| RangeScans.GatherExactly | src/main/java/th/go/bb/neb/prescreening/logic/nebworksheetservice/utils/ExcelReader.java:1099-1108 | the collected list has no repeats, holds no excepted value, and holds every value seen exactly when it is not excepted |
| RangeScans.GatherPrefix | src/main/java/th/go/bb/neb/prescreening/logic/nebworksheetservice/utils/ExcelReader.java:1106-1108 | values keep their first-occurrence order: the result for a prefix of the scan is a prefix of the result |
| RangeScans.CollectedExactly | src/main/java/th/go/bb/neb/prescreening/logic/nebworksheetservice/utils/ExcelReader.java:1094-1108 | the same, for the trimmed string forms of the cells scanned |
| RangeScans.AllValues | src/main/java/th/go/bb/neb/prescreening/logic/nebworksheetservice/utils/ExcelReader.java:1083-1113 | no repeats and no excepted values |
| RangeScans.AllValuesInRange | src/main/java/th/go/bb/neb/prescreening/logic/nebworksheetservice/utils/ExcelReader.java:1015-1117 | a missing sheet gives sheet-not-found; a bad range gives the parser's error; a result has no repeats and no excepted values |
| RangeScans.AllValuesExactly | src/main/java/th/go/bb/neb/prescreening/logic/nebworksheetservice/utils/ExcelReader.java:1086-1111 | every non-empty cell of the rectangle is excepted or listed, and every listed value comes from such a cell |
| RangeScans.GetAllValuesInRange | src/main/java/th/go/bb/neb/prescreening/logic/nebworksheetservice/utils/ExcelReader.java:1015-1117 | returns `AllValuesInRange`: the sheet or range error, or the distinct texts of the range's non-empty cells outside the exception list |
| RangeScans.CollectTexts | src/main/java/th/go/bb/neb/prescreening/logic/nebworksheetservice/utils/ExcelReader.java:1086-1111 | returns `Collected`: the distinct texts met row by row, column by column, exceptions skipped |
| RangeScans.CollectRowTexts | src/main/java/th/go/bb/neb/prescreening/logic/nebworksheetservice/utils/ExcelReader.java:1090-1110 | extends the texts collected so far with the new texts of one row's cells, in column order (`Gather`) |
| RangeScans.GroupIsPositions | src/main/java/th/go/bb/neb/prescreening/logic/nebworksheetservice/utils/ExcelReader.java:1205-1211 | a value is grouped iff it was seen at some position, and its group is the list of those positions in scan order |
| RangeScans.ExceptedHasNoPositions | src/main/java/th/go/bb/neb/prescreening/logic/nebworksheetservice/utils/ExcelReader.java:1200-1202 | an excepted typed value is never grouped |
| RangeScans.PositionsNameCells | src/main/java/th/go/bb/neb/prescreening/logic/nebworksheetservice/utils/ExcelReader.java:1205 | every listed position names a scanned cell holding the value |
| RangeScans.DuplicateValues | src/main/java/th/go/bb/neb/prescreening/logic/nebworksheetservice/utils/ExcelReader.java:1132-1186 | the check fails iff the range does not parse, with the parser's error |
| RangeScans.DuplicatesExactly | src/main/java/th/go/bb/neb/prescreening/logic/nebworksheetservice/utils/ExcelReader.java:1189-1221 | a typed value is reported iff it appears at two or more positions, with exactly those positions; excepted values never are |
| RangeScans.CheckDuplicateValuesInRange | src/main/java/th/go/bb/neb/prescreening/logic/nebworksheetservice/utils/ExcelReader.java:1127-1224 | returns `DuplicateValues`: the range error, or each value seen in two or more cells mapped to those cells' names |
| RangeScans.GroupCells | src/main/java/th/go/bb/neb/prescreening/logic/nebworksheetservice/utils/ExcelReader.java:1189-1213 | returns `Groups`: every non-excepted value of the rectangle mapped to the names of the cells holding it, in scan order |
| RangeScans.GroupCell | src/main/java/th/go/bb/neb/prescreening/logic/nebworksheetservice/utils/ExcelReader.java:1197-1211 | one cell appends its position to its value's group unless the value is excepted |
| RangeScans.GroupRowCells | src/main/java/th/go/bb/neb/prescreening/logic/nebworksheetservice/utils/ExcelReader.java:1193-1212 | extends the groups so far with one row's cells, appending each cell's name under its value (`Group`) |
| RangeScans.FilterDuplicates | src/main/java/th/go/bb/neb/prescreening/logic/nebworksheetservice/utils/ExcelReader.java:1216-1221 | returns `Duplicates`: exactly the groups with two or more cells |
| RangeScans.DuplicateValuesIn | src/main/java/th/go/bb/neb/prescreening/logic/nebworksheetservice/utils/ExcelReader.java:990-1003 | a missing sheet gives sheet-not-found; otherwise the sheet's duplicate check |
| RowReads.FirstMatch | src/main/java/th/go/bb/neb/prescreening/logic/nebworksheetservice/utils/ExcelReader.java:662-698 | a found row lies in the scanned window |
| RowReads.FirstMatchFound | src/main/java/th/go/bb/neb/prescreening/logic/nebworksheetservice/utils/ExcelReader.java:662-698 | the found row's trimmed text satisfies the condition, and every earlier row was skipped or did not match |
| RowReads.FirstMatchNone | src/main/java/th/go/bb/neb/prescreening/logic/nebworksheetservice/utils/ExcelReader.java:662-703 | no row is found iff every row was skipped or did not match |
| RowReads.FirstMatchErr | src/main/java/th/go/bb/neb/prescreening/logic/nebworksheetservice/utils/ExcelReader.java:676-691 | the search throws iff the condition is unknown and some row has a non-empty search cell, with the source's message |
| RowReads.SearchRows | src/main/java/th/go/bb/neb/prescreening/logic/nebworksheetservice/utils/ExcelReader.java:659-698 | returns `FirstMatch`: the first row from 0 whose cell in the column satisfies the condition, none when no row does, or the comparison's error |
| RowReads.ExtractColumnRef | src/main/java/th/go/bb/neb/prescreening/logic/nebworksheetservice/utils/ExcelReader.java:1233-1237 | a text not starting with `COLUMN(` is returned unchanged |
| RowReads.ColumnRefOfDirective | src/main/java/th/go/bb/neb/prescreening/logic/nebworksheetservice/utils/ExcelReader.java:1238-1279 | `COLUMN("n","r")` yields `r` |
| RowReads.ColumnRefOfOneParam | src/main/java/th/go/bb/neb/prescreening/logic/nebworksheetservice/utils/ExcelReader.java:1267-1269 | `COLUMN("n")` yields null |
| RowReads.ExtractFirstPart | src/main/java/th/go/bb/neb/prescreening/logic/nebworksheetservice/utils/ExcelReader.java:757-774 | a result never contains a quote |
| RowReads.FirstPartOfDirective | src/main/java/th/go/bb/neb/prescreening/logic/nebworksheetservice/utils/ExcelReader.java:757-774 | `COLUMN("n",…)` yields `n` |
| RowReads.TemplateReadsFoundRow | src/main/java/th/go/bb/neb/prescreening/logic/nebworksheetservice/utils/ExcelReader.java:708-742 | a `COLUMN("n","C?")` template reads column C of the found row |
| RowReads.RowByValuesShape | src/main/java/th/go/bb/neb/prescreening/logic/nebworksheetservice/utils/ExcelReader.java:624-746 | a search error propagates; no match gives the empty list; a match gives one value per template |
| RowReads.FindRowByConditionAndReadColumns | src/main/java/th/go/bb/neb/prescreening/logic/nebworksheetservice/utils/ExcelReader.java:624-746 | returns `RowByValues`: the file-type, sheet or search-column error, an empty list when no row matches, else one value per template read from the first matching row |
| RowReads.RowSpanOfNumbers | src/main/java/th/go/bb/neb/prescreening/logic/nebworksheetservice/utils/ExcelReader.java:808-814 | `a:b` gives the 0-based rows `a-1` and `b-1` |
| RowReads.BracketContent | src/main/java/th/go/bb/neb/prescreening/logic/nebworksheetservice/utils/ExcelReader.java:817-821 | the text must be enclosed in brackets, or the source's message is thrown; the content is what lies between them |
| RowReads.ColumnOfLetters | src/main/java/th/go/bb/neb/prescreening/logic/nebworksheetservice/utils/ExcelReader.java:826-830 | a column given by its letters resolves to that column |
| RowReads.RecordKeys | src/main/java/th/go/bb/neb/prescreening/logic/nebworksheetservice/utils/ExcelReader.java:839-853 | a row record has exactly the given keys |
| RowReads.RecordValue | src/main/java/th/go/bb/neb/prescreening/logic/nebworksheetservice/utils/ExcelReader.java:841-853 | a key not repeated later holds the value of its column's cell (a later duplicate key overwrites) |
| RowReads.RecordsBound | src/main/java/th/go/bb/neb/prescreening/logic/nebworksheetservice/utils/ExcelReader.java:835-857 | there are at most `endRow-startRow+1` records |
| RowReads.RecordsExactly | src/main/java/th/go/bb/neb/prescreening/logic/nebworksheetservice/utils/ExcelReader.java:835-857 | every record is the record of a present row of the span, and every present row of the span has its record listed |
| RowReads.MappedKeys | src/main/java/th/go/bb/neb/prescreening/logic/nebworksheetservice/utils/ExcelReader.java:937-944 | the mapping names are the mapping parts without their outer quotes |
| RowReads.RowsAndColumnsShape | src/main/java/th/go/bb/neb/prescreening/logic/nebworksheetservice/utils/ExcelReader.java:786-864 | at most one record per row of the span, each keyed by exactly the trimmed column names |
| RowReads.RowsWithMappingShape | src/main/java/th/go/bb/neb/prescreening/logic/nebworksheetservice/utils/ExcelReader.java:877-975 | the column/mapping count mismatch throws with the source's message; otherwise records are bounded by the span and keyed by the mapping names |
| RowReads.ReadRecords | src/main/java/th/go/bb/neb/prescreening/logic/nebworksheetservice/utils/ExcelReader.java:835-857 | returns `Records`: one record per row from `lo` to `hi`, in order |
| RowReads.ReadRecord | src/main/java/th/go/bb/neb/prescreening/logic/nebworksheetservice/utils/ExcelReader.java:841-853 | returns `Record`: each key mapped to the value of its column in that row |
| RowReads.ReadRowsAndColumns | src/main/java/th/go/bb/neb/prescreening/logic/nebworksheetservice/utils/ExcelReader.java:786-864 | returns `RowsAndColumns`: the sheet or range error, or one record per row keyed by the column letters |
| RowReads.ReadRowsAndColumnsWithMapping | src/main/java/th/go/bb/neb/prescreening/logic/nebworksheetservice/utils/ExcelReader.java:877-975 | returns `RowsWithMapping`: as `RowsAndColumns`, but keyed by the mapped names, and failing when the mapping does not match the columns |
| Variables.FixInstruction | src/main/java/th/go/bb/neb/prescreening/logic/nebworksheetservice/utils/ExcelReader.java:209-212 | `FIX v` binds the trimmed `v` |
| Variables.FixOfBlank | src/main/java/th/go/bb/neb/prescreening/logic/nebworksheetservice/utils/ExcelReader.java:206-226 | `FIX ` with a blank value is trimmed to `FIX` and is an unsupported instruction |
| Variables.CellInstruction | src/main/java/th/go/bb/neb/prescreening/logic/nebworksheetservice/utils/ExcelReader.java:214-217 | a single-cell reference reads that cell of the default sheet |
| Variables.CountInstruction | src/main/java/th/go/bb/neb/prescreening/logic/nebworksheetservice/utils/ExcelReader.java:219-223 | `COUNT range` counts the range in the default sheet, with its errors |
| Variables.ConfigErrorsBecomeValues | src/main/java/th/go/bb/neb/prescreening/logic/nebworksheetservice/utils/ExcelReader.java:230-368 | an IllegalArgumentException from a COUNT, COLUMN, ROWBY or ROW binding becomes the value `ข้อผิดพลาด: ` + message; other failures propagate; a string instruction's errors propagate |
| Variables.MissingTargetSheet | src/main/java/th/go/bb/neb/prescreening/logic/nebworksheetservice/utils/ExcelReader.java:230-264 | a COUNT or COLUMN binding on a missing target sheet yields the sheet-not-found message as its value |
| Variables.BaseName | src/main/java/th/go/bb/neb/prescreening/logic/nebworksheetservice/utils/ExcelReader.java:175-176 | the base name is a slash-free suffix of the path |
| Variables.AgencyCode | src/main/java/th/go/bb/neb/prescreening/logic/nebworksheetservice/utils/ExcelReader.java:177-180 | the agency code is the first five characters of the base name, or `""` when it is shorter |
| Variables.ExcelVariables | src/main/java/th/go/bb/neb/prescreening/logic/nebworksheetservice/utils/ExcelReader.java:185-191 | a named default sheet that is missing throws sheet-not-found |
| Variables.NotAgencyKey | src/main/java/th/go/bb/neb/prescreening/logic/nebworksheetservice/utils/ExcelReader.java:181-195 | no lower-cased variable name can be `agencyCode`, so it is never overwritten |
| Variables.EvaluatedKeys | src/main/java/th/go/bb/neb/prescreening/logic/nebworksheetservice/utils/ExcelReader.java:181-199 | the result holds `agencyCode` and exactly the lower-cased variable names other than `validates` |
| Variables.EvaluatedAgency | src/main/java/th/go/bb/neb/prescreening/logic/nebworksheetservice/utils/ExcelReader.java:177-181 | `agencyCode` holds the agency code |
| Variables.EvaluatedValue | src/main/java/th/go/bb/neb/prescreening/logic/nebworksheetservice/utils/ExcelReader.java:194-372 | a name not shared with another variable holds its binding's value |
| Variables.EvaluatedErr | src/main/java/th/go/bb/neb/prescreening/logic/nebworksheetservice/utils/ExcelReader.java:194-373 | the evaluation fails iff some variable other than `validates` fails |
| Variables.ReadExcelVariables | src/main/java/th/go/bb/neb/prescreening/logic/nebworksheetservice/utils/ExcelReader.java:170-379 | returns `ExcelVariables`: the missing default sheet's error, else the agency code plus each variable of the order evaluated under its lower-cased name, stopping at the first error |
| Variables.EvaluateBinding | src/main/java/th/go/bb/neb/prescreening/logic/nebworksheetservice/utils/ExcelReader.java:202-372 | returns `BindingValue`: the value of one FIX, COLUMN, COUNT, ROW or ROWBY binding |
| Variables.EvaluateInstruction | src/main/java/th/go/bb/neb/prescreening/logic/nebworksheetservice/utils/ExcelReader.java:205-227 | returns `InstructionValue`: the cell value or count that a string instruction names |
| Variables.EvaluateCount | src/main/java/th/go/bb/neb/prescreening/logic/nebworksheetservice/utils/ExcelReader.java:230-252 | returns the `ConfigValue` of a COUNT binding: the non-empty count of the range, or of the target value's cells |
| Variables.EvaluateRowBy | src/main/java/th/go/bb/neb/prescreening/logic/nebworksheetservice/utils/ExcelReader.java:278-344 | returns the `ConfigValue` of a ROWBY binding: the values read from the row the condition finds, templates split by the parenthesis-aware scanner |
| Variables.EvaluateRow | src/main/java/th/go/bb/neb/prescreening/logic/nebworksheetservice/utils/ExcelReader.java:346-368 | returns the `ConfigValue` of a ROW binding: the records of the row range and columns |
| DirectiveBinding.Command | src/main/java/th/go/bb/neb/prescreening/logic/nebworksheetservice/NEBWorkSheetService.java:58-196 | the dispatched command is a prefix of the directive followed by `(`, or none |
| DirectiveBinding.Optional | src/main/java/th/go/bb/neb/prescreening/logic/nebworksheetservice/NEBWorkSheetService.java:77-79 | an optional part is present iff the directive has that many parts |
| DirectiveBinding.SplitSearch | src/main/java/th/go/bb/neb/prescreening/logic/nebworksheetservice/NEBWorkSheetService.java:110 | `split(" ", 3)` gives one to three parts |
| DirectiveBinding.SplitSearchJoins | src/main/java/th/go/bb/neb/prescreening/logic/nebworksheetservice/NEBWorkSheetService.java:110 | the parts rejoin with spaces to the input, and only the last part may hold a space |
| DirectiveBinding.SplitSearchOf | src/main/java/th/go/bb/neb/prescreening/logic/nebworksheetservice/NEBWorkSheetService.java:110-116 | `col cond value with spaces` splits into the column, the condition and the rest |
| DirectiveBinding.BindErrorsIgnoreState | src/main/java/th/go/bb/neb/prescreening/logic/nebworksheetservice/NEBWorkSheetService.java:58-196 | whether a directive throws, and what, does not depend on the bindings so far |
| DirectiveBinding.BoundErr | src/main/java/th/go/bb/neb/prescreening/logic/nebworksheetservice/NEBWorkSheetService.java:58-197 | binding fails iff some directive throws |
| DirectiveBinding.SkippedDirectives | src/main/java/th/go/bb/neb/prescreening/logic/nebworksheetservice/NEBWorkSheetService.java:59-196 | an unknown directive, one with fewer parameters than its command needs, or a ROWBY whose search part has fewer than three words, changes nothing |
| DirectiveBinding.RowByKeyOnly | src/main/java/th/go/bb/neb/prescreening/logic/nebworksheetservice/NEBWorkSheetService.java:124-135 | a ROWBY directive touches only the fixed key `ROWBY` |
| DirectiveBinding.FixBinds | src/main/java/th/go/bb/neb/prescreening/logic/nebworksheetservice/NEBWorkSheetService.java:62-67 | `FIX("k","v")` binds `k` to the instruction `FIX v` |
| DirectiveBinding.LastFixWins | src/main/java/th/go/bb/neb/prescreening/logic/nebworksheetservice/NEBWorkSheetService.java:66 | a later FIX on the same key overwrites any earlier binding |
| DirectiveBinding.CheckDuplicateBinds | src/main/java/th/go/bb/neb/prescreening/logic/nebworksheetservice/NEBWorkSheetService.java:156-178 | `CHKDUPLICATE("s", range)` adds exactly that check, with no excepted values, and changes nothing else |
| DirectiveBinding.BindSheetName | src/main/java/th/go/bb/neb/prescreening/logic/nebworksheetservice/NEBWorkSheetService.java:59-61 | only a SHEET directive changes the default sheet, and it sets it to its string parameter |
| DirectiveBinding.BoundSheetName | src/main/java/th/go/bb/neb/prescreening/logic/nebworksheetservice/NEBWorkSheetService.java:58-61 | the default sheet is the one named by the last SHEET directive |
| DirectiveBinding.BindDirectives | src/main/java/th/go/bb/neb/prescreening/logic/nebworksheetservice/NEBWorkSheetService.java:58-197 | returns `Bound`: the directives of the parameters applied in order, stopping at the first parse error |
| DirectiveBinding.BindOne | src/main/java/th/go/bb/neb/prescreening/logic/nebworksheetservice/NEBWorkSheetService.java:59-196 | returns `BindParam`: the effect of one parameter, chosen by its directive keyword |
| WorkSheetService.SheetNotFoundIsMissing | src/main/java/th/go/bb/neb/prescreening/logic/nebworksheetservice/NEBWorkSheetService.java:273 | the sheet-not-found message is recognised as a missing sheet |
| WorkSheetService.MissingSheetReported | src/main/java/th/go/bb/neb/prescreening/logic/nebworksheetservice/NEBWorkSheetService.java:263-278 | a CHKDUPLICATE on a missing sheet records that sheet's message and no duplicates |
| WorkSheetService.ReadSheetsLinked | src/main/java/th/go/bb/neb/prescreening/logic/nebworksheetservice/NEBWorkSheetService.java:287-312 | the sheet values are keyed by the names of sheets that exist, each name listed once in first-insertion order |
| WorkSheetService.CommonExactly | src/main/java/th/go/bb/neb/prescreening/logic/nebworksheetservice/NEBWorkSheetService.java:317-331 | the cross-sheet list holds exactly the second list's values that the first holds, and is no longer than the second |
| WorkSheetService.SheetDuplicateFindings | src/main/java/th/go/bb/neb/prescreening/logic/nebworksheetservice/NEBWorkSheetService.java:282-335 | with fewer than two distinct sheets read nothing is compared; otherwise the findings are the intersection of the first two sheets' values |
| WorkSheetService.MergedErr | src/main/java/th/go/bb/neb/prescreening/logic/nebworksheetservice/NEBWorkSheetService.java:243-341 | the validation loop fails iff some check throws something other than sheet-not-found |
| WorkSheetService.MergedFindings | src/main/java/th/go/bb/neb/prescreening/logic/nebworksheetservice/NEBWorkSheetService.java:243-341 | a duplicate, cross-sheet value or missing sheet is reported iff some check reported it |
| WorkSheetService.SameFinding | src/main/java/th/go/bb/neb/prescreening/logic/nebworksheetservice/NEBWorkSheetService.java:247 | the findings do not depend on the HashSet's iteration order |
| WorkSheetService.ReportTaxonomy | src/main/java/th/go/bb/neb/prescreening/logic/nebworksheetservice/NEBWorkSheetService.java:344-404 | the data is kept; the status is success iff nothing was found; any missing sheet gives SHEET_NOT_FOUND with the joined messages; otherwise DUPLICATE_AND_CROSS_SHEET_DUPLICATE, DUPLICATE or CROSS_SHEET_DUPLICATE by which findings are non-empty |
| WorkSheetService.ReportByKinds | src/main/java/th/go/bb/neb/prescreening/logic/nebworksheetservice/NEBWorkSheetService.java:351-403 | the status and error code depend only on which kinds of finding are non-empty |
| WorkSheetService.MissingSheetFails | src/main/java/th/go/bb/neb/prescreening/logic/nebworksheetservice/NEBWorkSheetService.java:271-359 | one CHKDUPLICATE on a missing sheet makes the whole report fail with SHEET_NOT_FOUND |
| WorkSheetService.ProcessExcel | src/main/java/th/go/bb/neb/prescreening/logic/nebworksheetservice/NEBWorkSheetService.java:44-50 | no parameters throws; a non-Excel file name throws |
| WorkSheetService.ProcessOrderFree | src/main/java/th/go/bb/neb/prescreening/logic/nebworksheetservice/NEBWorkSheetService.java:194-247 | whether the run fails, and its status and error code, do not depend on the HashMap and HashSet iteration orders |
| WorkSheetService.VariablesOrderFree | src/main/java/th/go/bb/neb/prescreening/logic/nebworksheetservice/NEBWorkSheetService.java:236 | whether evaluating the variables fails does not depend on their iteration order |
| WorkSheetService.ChecksOrderFree | src/main/java/th/go/bb/neb/prescreening/logic/nebworksheetservice/NEBWorkSheetService.java:243-341 | whether the checks fail, and which kinds of finding they produce, do not depend on their order |
| WorkSheetService.CheckAll | src/main/java/th/go/bb/neb/prescreening/logic/nebworksheetservice/NEBWorkSheetService.java:243-341 | returns `Checked`: the findings of every check, in the given order, or the first check's exception |
| WorkSheetService.CheckOne | src/main/java/th/go/bb/neb/prescreening/logic/nebworksheetservice/NEBWorkSheetService.java:248-337 | returns `Effect`: one check's duplicate findings or its exception |
| WorkSheetService.ReadSheetValues | src/main/java/th/go/bb/neb/prescreening/logic/nebworksheetservice/NEBWorkSheetService.java:290-312 | returns `ReadSheets`: the distinct values of each configured sheet range, a missing sheet reported as not found, or the first other read error |
| WorkSheetService.CommonValues | src/main/java/th/go/bb/neb/prescreening/logic/nebworksheetservice/NEBWorkSheetService.java:317-331 | returns `Common`: the values of the second list that also occur in the first, in second-list order |
| WorkSheetService.ProcessExcelToWssResult | src/main/java/th/go/bb/neb/prescreening/logic/nebworksheetservice/NEBWorkSheetService.java:44-407 | returns `ProcessExcel`: the bound data with `success`, or `fail` with the error code the lemmas name |
| CrossFile.CrossRequest | src/main/java/th/go/bb/neb/prescreening/logic/nebworksheetservice/NEBWorkSheetService.java:447-462 | a parameter with neither cross-file prefix is ignored; a compare request carries a condition and a duplicated request does not; a parameter with the CROSSFILEDUPLICATED prefix that parses becomes a duplicated request, in either reading |
| CrossFile.ExtractRequest | src/main/java/th/go/bb/neb/prescreening/logic/nebworksheetservice/NEBWorkSheetService.java:448-461 | returns the as-written `CrossRequest`: a duplicated request, a compare request, or nothing, by the parameter's prefix |
| CrossFile.SetFoldExactly | src/main/java/th/go/bb/neb/prescreening/logic/nebworksheetservice/NEBWorkSheetService.java:446-463 | collecting requests fails iff one fails, and collects exactly the requests parsed |
| CrossFile.CollectCrossRequests | src/main/java/th/go/bb/neb/prescreening/logic/nebworksheetservice/NEBWorkSheetService.java:446-463 | returns the as-written `CrossRequests`: the set of cross-file requests of the parameters, or the first parse error |
| CrossFile.LastByKeyExactly | src/main/java/th/go/bb/neb/prescreening/logic/nebworksheetservice/NEBWorkSheetService.java:641-644 | the file map holds exactly the files' base names, each mapped to the last workbook with that name |
| CrossFile.FileWorkbookMap | src/main/java/th/go/bb/neb/prescreening/logic/nebworksheetservice/NEBWorkSheetService.java:641-644 | returns `FileWorkbooks`: each file's base name mapped to its workbook, a later file of the same name winning |
| CrossFile.ReadPair | src/main/java/th/go/bb/neb/prescreening/logic/nebworksheetservice/NEBWorkSheetService.java:637-666 | anything but two configs throws; an unknown first file throws with its name; a success is the reads of both configs |
| CrossFile.ReadConfigPair | src/main/java/th/go/bb/neb/prescreening/logic/nebworksheetservice/NEBWorkSheetService.java:637-666 | returns `ReadPair`: the error for other than two configs, the missing-workbook or read error, or the distinct values of the two configs' ranges |
| CrossFile.ReadConfig | src/main/java/th/go/bb/neb/prescreening/logic/nebworksheetservice/NEBWorkSheetService.java:650-660 | returns `ConfigRead` with distinct values: the missing-workbook error, or the distinct texts of the config's range |
| CrossFile.CommonNoDuplicates | src/main/java/th/go/bb/neb/prescreening/logic/nebworksheetservice/NEBWorkSheetService.java:669-674 | the shared values have no repeats |
| CrossFile.EqualConditionExactly | src/main/java/th/go/bb/neb/prescreening/logic/nebworksheetservice/NEBWorkSheetService.java:632-677 | once both files are read, the check succeeds with exactly the values both files hold, without repeats |
| CrossFile.CheckCrossFileEqualCondition | src/main/java/th/go/bb/neb/prescreening/logic/nebworksheetservice/NEBWorkSheetService.java:632-677 | returns `EqualCondition`: the `ReadPair` error, or the values of the first range that also occur in the second |
| CrossFile.IntegerTextIsDecimal | src/main/java/th/go/bb/neb/prescreening/logic/nebworksheetservice/NEBWorkSheetService.java:614-615 | the text of an integer matches `-?\d+(\.\d+)?` and parses to that integer |
| CrossFile.DecimalSumAppend | src/main/java/th/go/bb/neb/prescreening/logic/nebworksheetservice/NEBWorkSheetService.java:613-622 | the sum of a concatenation is the sum of the parts |
| CrossFile.DecimalSumOrderFree | src/main/java/th/go/bb/neb/prescreening/logic/nebworksheetservice/NEBWorkSheetService.java:613-617 | the sum does not depend on the HashSet's iteration order |
| CrossFile.DistinctSumIsSetSum | src/main/java/th/go/bb/neb/prescreening/logic/nebworksheetservice/NEBWorkSheetService.java:602-617 | two repeat-free lists with the same elements have the same sum |
| CrossFile.SumMismatch | src/main/java/th/go/bb/neb/prescreening/logic/nebworksheetservice/NEBWorkSheetService.java:625-627 | a finding is reported iff the two sums differ, and it carries both sums |
| CrossFile.ReadPairsAgree | src/main/java/th/go/bb/neb/prescreening/logic/nebworksheetservice/NEBWorkSheetService.java:586-606 | reading every cell and reading distinct values fail alike and see the same set of values |
| CrossFile.CrossCompareFailsAlike | src/main/java/th/go/bb/neb/prescreening/logic/nebworksheetservice/NEBWorkSheetService.java:575-606 | the corrected and as-written comparisons fail in the same cases, with the same errors |
| CrossFile.ExampleSums | src/main/java/th/go/bb/neb/prescreening/logic/nebworksheetservice/NEBWorkSheetService.java:613-622 | the sums of `15`, of `15,15` and of `30` are 15, 30 and 30 |
| CrossFile.CrossCompareCountsRepeats | src/main/java/th/go/bb/neb/prescreening/logic/nebworksheetservice/NEBWorkSheetService.java:586-627 | as written, a file holding 15 twice and one holding 30 are reported unequal (15 vs 30); corrected, they are equal |
| CrossFile.TextsSumIsCellsSum | src/main/java/th/go/bb/neb/prescreening/logic/nebworksheetservice/NEBWorkSheetService.java:613-617 | adding up the texts of some cells is adding up each cell's own contribution |
| CrossFile.RangeSumIsCellsSum | src/main/java/th/go/bb/neb/prescreening/logic/nebworksheetservice/NEBWorkSheetService.java:586-617 | the intended sum of a whole range is the sum of the contributions of every data cell of its rectangle, repeats included |
| CrossFile.CompareAgreesWithoutRepeats | src/main/java/th/go/bb/neb/prescreening/logic/nebworksheetservice/NEBWorkSheetService.java:586-627 | where neither range repeats a value, the as-written and the corrected comparisons give the same result |
| CrossFile.SumValues | src/main/java/th/go/bb/neb/prescreening/logic/nebworksheetservice/NEBWorkSheetService.java:613-617 | returns `DecimalSum`: the exact sum of the texts that read as decimals after trimming, other texts adding nothing |
| CrossFile.CheckCrossCompare | src/main/java/th/go/bb/neb/prescreening/logic/nebworksheetservice/NEBWorkSheetService.java:575-630 | returns `CrossCompareAsWritten`: the two configs' distinct values are read, and a mismatch is reported exactly when their sums differ |
| CrossFile.SharedValues | src/main/java/th/go/bb/neb/prescreening/logic/nebworksheetservice/NEBWorkSheetService.java:487-492 | every shared value is reported, one for one |
| CrossFile.CrossCheck | src/main/java/th/go/bb/neb/prescreening/logic/nebworksheetservice/NEBWorkSheetService.java:477-517 | in either reading, a compare request with a condition other than `EQUAL` finds nothing, and a finding lists values and carries CROSS_FILE_DUPLICATED or CROSS_FILE_COMPARE by kind |
| CrossFile.DuplicatedAsWrittenThrows | src/main/java/th/go/bb/neb/prescreening/logic/nebworksheetservice/NEBWorkSheetService.java:477-493 | as written, checking a CROSSFILEDUPLICATED request always throws, unless one of the files is itself named like the directive |
| CrossFile.FirstOfExactly | src/main/java/th/go/bb/neb/prescreening/logic/nebworksheetservice/NEBWorkSheetService.java:473-521 | the run finds nothing iff every check finds nothing; otherwise it returns the first check that found something |
| CrossFile.RunChecks | src/main/java/th/go/bb/neb/prescreening/logic/nebworksheetservice/NEBWorkSheetService.java:469-521 | returns the as-written `FirstFinding`: the first request whose check finds something, or success when none does |
| CrossFile.CheckRequest | src/main/java/th/go/bb/neb/prescreening/logic/nebworksheetservice/NEBWorkSheetService.java:477-517 | returns the as-written `CrossCheck`: one cross-file request's finding |
| CrossFile.MultiFile | src/main/java/th/go/bb/neb/prescreening/logic/nebworksheetservice/NEBWorkSheetService.java:427-441 | in either reading, no parameters throws, anything but two files throws, and a non-Excel file throws |
| CrossFile.MultiFileOutcome | src/main/java/th/go/bb/neb/prescreening/logic/nebworksheetservice/NEBWorkSheetService.java:469-525 | in either reading, the answer is the empty result iff no requested check finds anything; otherwise it is some requested check's finding |
| CrossFile.ProcessMultiFile | src/main/java/th/go/bb/neb/prescreening/logic/nebworksheetservice/NEBWorkSheetService.java:427-543 | returns the as-written `MultiFile`: the parse error, or the first finding of the requests, or success |
| ExcelUtilities.CellStringAgrees | src/main/java/th/go/bb/neb/prescreening/logic/nebworksheetservice/utils/ExcelUtil.java:90-125 | for a cell whose whole number fits in a long, the utility's cell text is the text of the reader's typed value |
| ExcelUtilities.CellStringsPartBeyondLong | src/main/java/th/go/bb/neb/prescreening/logic/nebworksheetservice/utils/ExcelUtil.java:90-125 | for the whole number 2^63 the two texts differ: the utility prints the number, the reader prints the saturated long 2^63 - 1 |
| ExcelUtilities.WholeNumberReadsBack | src/main/java/th/go/bb/neb/prescreening/logic/nebworksheetservice/utils/ExcelUtil.java:103-105 | a whole-number cell's text parses back to the number |
| ExcelUtilities.ColumnIndexOf | src/main/java/th/go/bb/neb/prescreening/logic/nebworksheetservice/utils/ExcelUtil.java:64-68 | the base-26 loop over the upper-cased letters gives the column index |
| ExcelUtilities.Keep | src/main/java/th/go/bb/neb/prescreening/logic/nebworksheetservice/utils/ExcelUtil.java:60-61 | `replaceAll` of a character class leaves only characters outside the class, and never lengthens the text |
| ExcelUtilities.KeepAppend | src/main/java/th/go/bb/neb/prescreening/logic/nebworksheetservice/utils/ExcelUtil.java:60-61 | deletion works piecewise over a concatenation |
| ExcelUtilities.RowIndexOf | src/main/java/th/go/bb/neb/prescreening/logic/nebworksheetservice/utils/ExcelUtil.java:61-71 | the row index parses iff the digits left after removing letters parse |
| ExcelUtilities.RefParts | src/main/java/th/go/bb/neb/prescreening/logic/nebworksheetservice/utils/ExcelUtil.java:60-61 | for `letters digits`, the two `replaceAll` calls split the reference into its letters and its digits |
| ExcelUtilities.CellValue | src/main/java/th/go/bb/neb/prescreening/logic/nebworksheetservice/utils/ExcelUtil.java:53-85 | a missing sheet gives null; otherwise the read fails iff the row text does not parse |
| ExcelUtilities.CellValueOfRef | src/main/java/th/go/bb/neb/prescreening/logic/nebworksheetservice/utils/ExcelUtil.java:53-85 | for an A1 reference, the read is null for a missing row or cell and the utility's cell text otherwise; for a cell whose number fits in a long, that is the text of the reader's typed value |
| ExcelUtilities.CellValueOfName | src/main/java/th/go/bb/neb/prescreening/logic/nebworksheetservice/utils/ExcelUtil.java:53-85 | reading a cell by its name gives that cell's text |
| ExcelUtilities.LetterCode | src/main/java/th/go/bb/neb/prescreening/logic/nebworksheetservice/utils/ExcelUtil.java:223 | the key `(char)('A'+col)` is a 16-bit code, equal to `'A'+col` when that fits |
| ExcelUtilities.HeaderNames | src/main/java/th/go/bb/neb/prescreening/logic/nebworksheetservice/utils/ExcelUtil.java:193-197 | one header per column: the cell's text, or `Column` + its 1-based number when the cell is missing |
| ExcelUtilities.DataRowsExactly | src/main/java/th/go/bb/neb/prescreening/logic/nebworksheetservice/utils/ExcelUtil.java:203-231 | the emitted rows are exactly the rows of the window with some non-empty cell text, in increasing order |
| ExcelUtilities.EmitExactly | src/main/java/th/go/bb/neb/prescreening/logic/nebworksheetservice/utils/ExcelUtil.java:228-229 | one record per emitted row |
| ExcelUtilities.RecordKeys | src/main/java/th/go/bb/neb/prescreening/logic/nebworksheetservice/utils/ExcelUtil.java:210-226 | a record's keys are exactly the keys of its columns |
| ExcelUtilities.LetterCodesDiffer | src/main/java/th/go/bb/neb/prescreening/logic/nebworksheetservice/utils/ExcelUtil.java:223 | distinct columns less than 65536 apart get distinct letter keys |
| ExcelUtilities.LetterRecord | src/main/java/th/go/bb/neb/prescreening/logic/nebworksheetservice/utils/ExcelUtil.java:221-225 | without headers, each column's letter key holds that column's text |
| ExcelUtilities.HeaderRecord | src/main/java/th/go/bb/neb/prescreening/logic/nebworksheetservice/utils/ExcelUtil.java:218-220 | with headers, a header not repeated later holds its column's text (a later duplicate overwrites) |
| ExcelUtilities.RangePlan | src/main/java/th/go/bb/neb/prescreening/logic/nebworksheetservice/utils/ExcelUtil.java:159-200 | parsing fails iff a row number does not parse or a header array would have negative size; the header row, when present, supplies the keys and is skipped |
| ExcelUtilities.RangeRecords | src/main/java/th/go/bb/neb/prescreening/logic/nebworksheetservice/utils/ExcelUtil.java:159-163 | a missing sheet gives the empty array; otherwise the plan's failures |
| ExcelUtilities.RangeRecordsRows | src/main/java/th/go/bb/neb/prescreening/logic/nebworksheetservice/utils/ExcelUtil.java:159-234 | one record per row in the range, below the header, that has some non-empty cell text |
| ExcelUtilities.MaxCol | src/main/java/th/go/bb/neb/prescreening/logic/nebworksheetservice/utils/ExcelUtil.java:255-261 | the width is the largest `lastCellNum` of the present rows, or 0 |
| ExcelUtilities.SheetPlan | src/main/java/th/go/bb/neb/prescreening/logic/nebworksheetservice/utils/ExcelUtil.java:251-274 | the sheet's plan is well formed |
| ExcelUtilities.SheetRecords | src/main/java/th/go/bb/neb/prescreening/logic/nebworksheetservice/utils/ExcelUtil.java:244-247 | a missing sheet gives the empty array |
| ExcelUtilities.SheetRecordsRows | src/main/java/th/go/bb/neb/prescreening/logic/nebworksheetservice/utils/ExcelUtil.java:243-308 | one record per emitted row; every row after the header holding a non-empty cell is emitted, and only rows with text are |
| ExcelUtilities.OtherCellsExactly | src/main/java/th/go/bb/neb/prescreening/logic/nebworksheetservice/utils/ExcelUtil.java:354-362 | a row's extra fields are exactly its present cells other than the searched column, keyed by letter |
| ExcelUtilities.RowsWith | src/main/java/th/go/bb/neb/prescreening/logic/nebworksheetservice/utils/ExcelUtil.java:335-343 | the rows of the window whose searched cell has the value, in increasing order |
| ExcelUtilities.ValueGroupsExactly | src/main/java/th/go/bb/neb/prescreening/logic/nebworksheetservice/utils/ExcelUtil.java:333-365 | a value is grouped iff it is non-empty and some row holds it; its group lists those rows in order |
| ExcelUtilities.Duplicates | src/main/java/th/go/bb/neb/prescreening/logic/nebworksheetservice/utils/ExcelUtil.java:368-376 | exactly the groups with more than one row |
| ExcelUtilities.DuplicatesExactly | src/main/java/th/go/bb/neb/prescreening/logic/nebworksheetservice/utils/ExcelUtil.java:319-379 | a value is reported iff it is non-empty and held by more than one row of the 1-based span; each entry carries the 1-based row and the value |
| ExcelUtilities.CountWithCondition | src/main/java/th/go/bb/neb/prescreening/logic/nebworksheetservice/utils/ExcelUtil.java:403-413 | counting with a condition never exceeds counting without one, and the condition `""` counts nothing |
| ExcelUtilities.CountedIffHolds | src/main/java/th/go/bb/neb/prescreening/logic/nebworksheetservice/utils/ExcelUtil.java:404-411 | a row is counted for a value iff its cell's text is that value |
| ExcelUtilities.CountMatchesRows | src/main/java/th/go/bb/neb/prescreening/logic/nebworksheetservice/utils/ExcelUtil.java:403-413 | counting a value over rows below a bound gives the number of rows holding it |
| ExcelUtilities.CountIsGroupSize | src/main/java/th/go/bb/neb/prescreening/logic/nebworksheetservice/utils/ExcelUtil.java:389-416 | a value's count is the size of its duplicate group over the whole sheet |
| ExcelUtilities.ReadHeaders | src/main/java/th/go/bb/neb/prescreening/logic/nebworksheetservice/utils/ExcelUtil.java:193-197 | the header loop fills a fresh array with the header names |
| ExcelUtilities.ReadRow | src/main/java/th/go/bb/neb/prescreening/logic/nebworksheetservice/utils/ExcelUtil.java:207-226 | returns `RowRecord` and `HasText`: the row's record and whether any of its cells in the columns holds text |
| ExcelUtilities.EmitRows | src/main/java/th/go/bb/neb/prescreening/logic/nebworksheetservice/utils/ExcelUtil.java:203-231 | returns `Emit`: one record per data row of the range, rows without text skipped |
| ExcelUtilities.MaxColumn | src/main/java/th/go/bb/neb/prescreening/logic/nebworksheetservice/utils/ExcelUtil.java:255-261 | returns `MaxCol`: the largest `lastCellNum` over the sheet's rows |
| ExcelUtilities.RowOthers | src/main/java/th/go/bb/neb/prescreening/logic/nebworksheetservice/utils/ExcelUtil.java:354-362 | returns `OtherCells`: the text of every other cell of the row, keyed by column |
| ExcelUtilities.ExcelUtil.constructor | src/main/java/th/go/bb/neb/prescreening/logic/nebworksheetservice/utils/ExcelUtil.java:27-44 | the utility holds the workbook it was opened on |
| ExcelUtilities.ExcelUtil.ReadCellValue | src/main/java/th/go/bb/neb/prescreening/logic/nebworksheetservice/utils/ExcelUtil.java:53-85 | returns `CellValue`: null for a missing sheet or cell, the row-number parse error, else the cell's text |
| ExcelUtilities.ExcelUtil.ReadRangeToJson | src/main/java/th/go/bb/neb/prescreening/logic/nebworksheetservice/utils/ExcelUtil.java:159-234 | returns `RangeRecords`: no records for a missing sheet, the reference error, else one record per row of the rectangle with text, keyed by header or by column letter |
| ExcelUtilities.ExcelUtil.ReadSheetToJson | src/main/java/th/go/bb/neb/prescreening/logic/nebworksheetservice/utils/ExcelUtil.java:243-308 | returns `SheetRecords`: the records of the whole sheet, no records for a missing sheet |
| ExcelUtilities.ExcelUtil.FindDuplicates | src/main/java/th/go/bb/neb/prescreening/logic/nebworksheetservice/utils/ExcelUtil.java:319-379 | returns `DuplicatesIn`: each non-empty value held by two or more rows of the 1-based row range, mapped to those rows in order |
| ExcelUtilities.ExcelUtil.CountItems | src/main/java/th/go/bb/neb/prescreening/logic/nebworksheetservice/utils/ExcelUtil.java:389-416 | returns `ItemCount`: 0 for a missing sheet, else the number of rows whose cell in the column has text, equal to the condition when one is given |
| Cells.RowAt | src/main/java/th/go/bb/neb/prescreening/logic/nebworksheetservice/utils/ExcelReader.java:467-470 | a row is present iff its index is non-negative and the sheet holds it |
| ExtractParams.CollectFileTuples | src/main/java/th/go/bb/neb/prescreening/logic/nebworksheetservice/utils/ExtractParams.java:280-308 | returns `Collect`: the configs of the tuples in order, stopping at the first failing tuple |
| ExtractParams.ReadFileTuple | src/main/java/th/go/bb/neb/prescreening/logic/nebworksheetservice/utils/ExtractParams.java:293-307 | an empty tuple is skipped; any other tuple is parsed |
| ExtractParams.CleanFieldOfQuoted | src/main/java/th/go/bb/neb/prescreening/logic/nebworksheetservice/utils/ExtractParams.java:332 | a quoted plain field comes back as its text |
| ExtractParams.ConfigsOfPair | src/main/java/th/go/bb/neb/prescreening/logic/nebworksheetservice/utils/ExtractParams.java:271-308 | an array of two parsable tuples yields their two configs, in order |
| ExtractParams.TupleKeepsPrefix | src/main/java/th/go/bb/neb/prescreening/logic/nebworksheetservice/utils/ExtractParams.java:317-347 | a leading comma-free, quote-free text stays at the head of the parsed file name |
| RowReads.RemoveQuotesOfQuoted | src/main/java/th/go/bb/neb/prescreening/logic/nebworksheetservice/utils/ExcelReader.java:770 | removing quotes from a quoted quote-free text gives the text |
| RowReads.RecordsKeys | src/main/java/th/go/bb/neb/prescreening/logic/nebworksheetservice/utils/ExcelReader.java:835-857 | every record of a block read has exactly the given keys |
| Variables.EvaluatedStep | src/main/java/th/go/bb/neb/prescreening/logic/nebworksheetservice/utils/ExcelReader.java:194-372 | one more variable adds its value under its lower-cased name, is skipped when it is `validates`, or fails the whole evaluation |
| DirectiveBinding.ApplyVariable | src/main/java/th/go/bb/neb/prescreening/logic/nebworksheetservice/NEBWorkSheetService.java:62-155 | returns `BindVariable`: the FIX, COLUMN, COUNT or ROW variable bound under its name; a directive with too few arguments changes nothing |
| DirectiveBinding.ApplyRowBy | src/main/java/th/go/bb/neb/prescreening/logic/nebworksheetservice/NEBWorkSheetService.java:98-137 | returns `BindRowBy`: the ROWBY variable added with its search sheet, column, condition and templates |
| DirectiveBinding.ApplyCheckDuplicate | src/main/java/th/go/bb/neb/prescreening/logic/nebworksheetservice/NEBWorkSheetService.java:156-178 | returns `BindCheckDuplicate`: the CHKDUPLICATE request added to the checks; fewer than two arguments change nothing |
| DirectiveBinding.ApplySheetDuplicate | src/main/java/th/go/bb/neb/prescreening/logic/nebworksheetservice/NEBWorkSheetService.java:179-195 | returns `BindSheetDuplicate`: the CHKSHEETDUPLICATE request added with its sheet configs; a body that is not a bracketed list changes nothing |
| DirectiveBinding.VariableErrors | src/main/java/th/go/bb/neb/prescreening/logic/nebworksheetservice/NEBWorkSheetService.java:62-155 | a variable directive fails, and how, regardless of the bindings so far |
| DirectiveBinding.RowByErrors | src/main/java/th/go/bb/neb/prescreening/logic/nebworksheetservice/NEBWorkSheetService.java:98-137 | a ROWBY directive fails, and how, regardless of the bindings so far |
| DirectiveBinding.CheckDuplicateErrors | src/main/java/th/go/bb/neb/prescreening/logic/nebworksheetservice/NEBWorkSheetService.java:156-178 | a CHKDUPLICATE directive fails, and how, regardless of the bindings so far |
| DirectiveBinding.SheetDuplicateErrors | src/main/java/th/go/bb/neb/prescreening/logic/nebworksheetservice/NEBWorkSheetService.java:179-195 | a CHKSHEETDUPLICATE directive fails, and how, regardless of the bindings so far |
| WorkSheetService.SomewhereSameElements | src/main/java/th/go/bb/neb/prescreening/logic/nebworksheetservice/NEBWorkSheetService.java:247 | whether some check reports a finding does not depend on the order the checks run in |
| CrossFile.AllTextsAgree | src/main/java/th/go/bb/neb/prescreening/logic/nebworksheetservice/utils/ExcelReader.java:1015-1117 | reading every cell's text fails exactly when the distinct read does, and sees the same set of values |
| ExcelUtilities.FilteredNarrower | src/main/java/th/go/bb/neb/prescreening/logic/nebworksheetservice/utils/ExcelUtil.java:403-413 | a stricter row test never counts more rows |
| ExcelUtilities.CellOf | src/main/java/th/go/bb/neb/prescreening/logic/nebworksheetservice/utils/ExcelUtil.java:208-209 | a cell is present iff its index is non-negative and the row holds it |

## Left out

- File I/O is not modelled. Opening files (`FileInputStream`, `createWorkbook`, XSSF/HSSF selection), closing workbooks, and the `IOException` branches that answer with the `E001` envelope are all left out. Each operation takes the already-opened workbook as a value; a file name is kept only where the code tests its extension.
- `ExcelUtilities.ExcelUtil.constructor` takes the workbook value instead of a path. The `.xlsx`/`.xls` test and its `IOException` happen while the file is opened, so they are not modelled.
- `processMutiFileExcelToWssResult` opens both files before it parses any directive. An I/O failure therefore comes before any other error. The model checks the extensions in its place.
- JSON serialisation (`JSONObject`, `JSONArray`, `toString`) is not modelled. Results are Dafny values: maps for objects, sequences for arrays. This includes `new JSONObject(crossSheetDuplicates)` on a `List` (NEBWorkSheetService.java:399), which goes through the bean constructor; the model keeps the list.
- `HashMap`/`HashSet` iteration order is not fixed. It is a parameter that must enumerate the collection, and lemmas show which results do not depend on it.
- POI internals are simplified:
  - Cell references are letters followed by digits. `CellReference` also accepts `$`, sheet-qualified and R1C1 forms; these are not modelled.
  - A date-formatted numeric cell is a `DateCell` carrying its rendered text. `DateUtil` is not modelled.
  - A formula cell carries the result POI would give (number, string, or neither). The `try`/`catch` around the cached-value getters is folded into that choice.
  - `getCell` with a negative index is taken to return `null`.
- Floating point is not modelled:
  - A whole number is an exact integer. A number with a fractional part is kept as its `Double.toString` text.
  - `Double.toString` of a whole number is only characterised: digits plus `.0` below 10^7, `E` notation above. `String.format("%.0f")` is exact for whole numbers.
  - The cross-file sums use exact reals where the code uses `double`, so rounding error in `Double.parseDouble` and in `+=` is not modelled.
- `toUpperCase`, `toLowerCase` and `equalsIgnoreCase` are modelled for ASCII letters only.
- `File.getName` is modelled as the text after the last `/`.
- 32-bit overflow in row and column arithmetic is not modelled. Row numbers are parsed with `Integer.parseInt` range checks, but later `+ 1`/`- 1` and the base-26 column accumulation are unbounded.
- `System.out.println` tracing and the `main` example are left out.
- The `ExcelParameter` classes (ExcelReader.java:23-157) are left out: no modelled path calls them.
- The `B15:EOF` default range and the loop that computes it (NEBWorkSheetService.java:205-233) are left out, because their result is never read.
- `ExcelUtil.readCellsToJson` (ExcelUtil.java:134-148) is left out. It only calls `readCellValue` once per entry of a `HashMap`, and `readCellValue` is modelled.
- ExcelUtilities.SheetRecordsRows: requires POI's invariant that every cell of a row lies below `getLastCellNum`. Without it, cells past the widest row would be ignored and the lemma would not hold.
- ExcelUtilities.LetterRecord: stated for ranges narrower than 65536 columns. Beyond that the `(char)` cast wraps, and two columns share a key.
- ExcelUtilities.OtherCellsExactly: stated for rows whose `getLastCellNum` keeps `'A' + i` below 65536, for the same reason.
- CrossFile.ReadPair: its contract names the missing-workbook error for the first config only. For the second config, the error shows only through the config read it calls.
- WorkSheetService.ProcessExcel: its own contract states only the argument errors. What it computes is stated by the lemmas on its parts (`BoundSheetName`, `EvaluatedKeys`, `MergedFindings`, `ReportTaxonomy`) and by `ProcessOrderFree`.
- CROSSFILECOMPARE: the design's description sums distinct value sets, as the code does. Only its worked example, where 15 and 15 make 30, counts every cell. The service's methods run the code as written; the `Corrected` reading of `CrossFile.MultiFile` is the every-cell summation of that example (see Findings).
- ExcelUtilities.CellStringAgrees: stated only for cells whose whole number fits in a long. Beyond that, the reader saturates the number in its `(long)` cast and the utility does not, so the two texts differ (`CellStringsPartBeyondLong`).
- Strings.ParseInt: accepts ASCII digits only. `Integer.parseInt` also accepts other Unicode decimal digits, such as the Thai digits ๐ to ๙, so a row number written in those digits is an error in the model and a number in the code.

## Findings

| source | as written | input that shows it | evidently intended | confidence | as-written member | corrected member |
|---|---|---|---|---|---|---|
| src/main/java/th/go/bb/neb/prescreening/logic/nebworksheetservice/utils/ExtractParams.java:247-268 | In `extractCrossFileCompare`, the `CROSSFILEDUPLICATED` branch strips the keyword from `content`, but `arrayPart` still holds the whole directive, and the tuples are then parsed from `arrayPart` | `CROSSFILEDUPLICATED([["a.xlsx","S","A1:A2"],["b.xlsx","S","A1:A2"]])`: the whole text is one tuple whose file name starts with `CROSSFILEDUPLICATED(`, so `checkCrossFileEqualCondition` finds one config instead of two and throws | `arrayPart` is the text between the parentheses, as in the `CROSSFILECOMPARE` branch, and the two tuples give two configs | not executed | ExtractParams.CrossFileCompareAsWritten (with ExtractParams.DuplicatedAsWrittenKeepsKeyword, ExtractParams.DuplicatedExampleDiffers, CrossFile.DuplicatedAsWrittenThrows) | ExtractParams.CrossFileCompare (with ExtractParams.DuplicatedReadsTuples) |
| src/main/java/th/go/bb/neb/prescreening/logic/nebworksheetservice/NEBWorkSheetService.java:586-627 | `checkCrossCompare` sums the values from `getAllValuesInRange`, which drops repeats (ExcelReader.java:1106-1108), after adding them to a `HashSet`; each distinct value is counted once | file 1 holds `15` in A1 and A2, file 2 holds `30` in A1, with ranges `A1:A2` and `A1:A1`: the check reports `15.0 ผลรวมไม่เท่ากับ 30.0` | the sum of every cell of each range, as the worked example of this check does (15 and 15 make 30), so the totals are equal and nothing is reported; the check's written description speaks of distinct values instead | not executed | CrossFile.CrossCompareAsWritten (with CrossFile.CrossCompareCountsRepeats) | CrossFile.CrossCompare (with CrossFile.CrossCompareCountsRepeats, CrossFile.RangeSumIsCellsSum, CrossFile.CompareAgreesWithoutRepeats) |
