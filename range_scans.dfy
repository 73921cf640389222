/** ExcelReader's two rectangle scans over a parsed range: getAllValuesInRange (the
    distinct trimmed texts, first occurrence first) and checkDuplicateValuesInRange
    (the typed values found at two or more cells, with their positions). Both visit
    the rectangle row by row, left to right, and skip missing rows and empty cells. */
module RangeScans {
  import opened Outcomes
  import opened Strings
  import opened Cells
  import opened ExcelReader

  /** A visited cell: 0-based row and column. */
  datatype Pos = Pos(row: int, col: nat)

  /** The rows lo..hi and columns c0..c1 a scan visits. */
  datatype Bounds = Bounds(lo: int, hi: int, c0: nat, c1: nat)

  /** The cells of row r in columns c0..c1 that hold data, left to right. */
  function RowData(sheet: Sheet, r: int, c0: nat, c1: int): seq<Pos>
    decreases c1 - c0
  {
    if c1 < c0 then [] else RowData(sheet, r, c0, c1 - 1) + (if HasData(sheet, r, c1) then [Pos(r, c1 as nat)] else [])
  }

  /** The cells of the rectangle that hold data, in row-major order. */
  function RectData(sheet: Sheet, b: Bounds): seq<Pos>
    decreases b.hi - b.lo
  {
    if b.hi < b.lo then [] else RectData(sheet, b.(hi := b.hi - 1)) + RowData(sheet, b.hi, b.c0, b.c1)
  }

  /** Scanning one more row appends that row's cells. */
  lemma RectDataSnoc(sheet: Sheet, b: Bounds, row: int)
    requires b.lo <= row
    ensures RectData(sheet, b.(hi := row)) == RectData(sheet, b.(hi := row - 1)) + RowData(sheet, row, b.c0, b.c1)
  {
    var b1 := b.(hi := row);
    assert b1.(hi := b1.hi - 1) == b.(hi := row - 1);
  }

  /** When a row loop over the rectangle stops, the rows it went through are the rectangle. */
  lemma RectDataDone(sheet: Sheet, b: Bounds, row: int)
    requires b.lo <= row && b.hi < row && (row <= b.hi + 1 || row == b.lo)
    ensures RectData(sheet, b.(hi := row - 1)) == RectData(sheet, b)
  {
    if b.hi < b.lo {
      assert RectData(sheet, b) == [] == RectData(sheet, b.(hi := row - 1));
    } else {
      assert b.(hi := row - 1) == b;
    }
  }

  /** When a column loop over the row stops, the columns it went through are the row's. */
  lemma RowDataDone(sheet: Sheet, r: int, c0: nat, c1: int, col: int)
    requires c0 <= col && c1 < col && (col <= c1 + 1 || col == c0)
    ensures RowData(sheet, r, c0, col - 1) == RowData(sheet, r, c0, c1)
  {
    if c1 < c0 {
      assert RowData(sheet, r, c0, c1) == [] == RowData(sheet, r, c0, col - 1);
    }
  }

  /** A row's list holds exactly the cells of the row holding data in the columns. */
  lemma {:induction false} RowDataExactly(sheet: Sheet, r: int, c0: nat, c1: int, p: Pos)
    ensures p in RowData(sheet, r, c0, c1) <==> p.row == r && c0 <= p.col <= c1 && HasData(sheet, r, p.col)
    decreases c1 - c0
  {
    if c1 >= c0 {
      RowDataExactly(sheet, r, c0, c1 - 1, p);
    }
  }

  /** The rectangle's list holds exactly the cells of the rectangle holding data. */
  lemma {:induction false} RectDataExactly(sheet: Sheet, b: Bounds, p: Pos)
    ensures p in RectData(sheet, b) <==> b.lo <= p.row <= b.hi && b.c0 <= p.col <= b.c1 && HasData(sheet, p.row, p.col)
    decreases b.hi - b.lo
  {
    if b.hi >= b.lo {
      RectDataExactly(sheet, b.(hi := b.hi - 1), p);
      RowDataExactly(sheet, b.hi, b.c0, b.c1, p);
    }
  }

  /** The rectangle of a parsed range: an EOF range ends at the last row of the start
      column holding data and covers that column only; without such a row there is
      nothing to scan. */
  function RangeBounds(sheet: Sheet, range: Range): (b: Option<Bounds>)
    ensures range.Explicit? ==> b == Some(Bounds(range.startRow, range.endRow, range.startCol, range.endCol))
    ensures range.ToEof? ==> (b.None? <==> LastDataRow(sheet, range.startCol, range.startRow, sheet.lastRowNum).None?)
    ensures range.ToEof? && b.Some? ==> b.value.c0 == b.value.c1 == range.startCol && b.value.lo == range.startRow
  {
    match range
    case Explicit(lo, c0, hi, c1) => Some(Bounds(lo, hi, c0, c1))
    case ToEof(lo, c) =>
      match LastDataRow(sheet, c, lo, sheet.lastRowNum)
      case None => None
      case Some(hi) => Some(Bounds(lo, hi, c, c))
  }

  method ScanBounds(sheet: Sheet, range: Range) returns (b: Option<Bounds>)
    ensures b == RangeBounds(sheet, range)
  {
    if range.Explicit? {
      return Some(Bounds(range.startRow, range.endRow, range.startCol, range.endCol));
    }
    var last := FindLastDataRow(sheet, range.startCol, range.startRow);
    if last.None? {
      return None;
    }
    return Some(Bounds(range.startRow, last.value, range.startCol, range.startCol));
  }

  /** In an EOF range, every start-column cell holding data from the start row to the
      bottom of the sheet is inside the scanned rectangle. */
  lemma EofBoundsCoverData(sheet: Sheet, range: Range, r: int)
    requires range.ToEof? && RangeBounds(sheet, range).Some?
    requires range.startRow <= r <= sheet.lastRowNum && HasData(sheet, r, range.startCol)
    ensures Pos(r, range.startCol) in RectData(sheet, RangeBounds(sheet, range).value)
  {
    RectDataExactly(sheet, RangeBounds(sheet, range).value, Pos(r, range.startCol));
  }

  // ---------------------------------------------------------------- getAllValuesInRange

  /** The text a scan records for a cell: toString() of its value, trimmed. */
  function CellText(sheet: Sheet, p: Pos): string
  {
    Trim(ValueText(GetCellValue(CellAt(sheet, p.row, p.col))))
  }

  predicate NoDuplicates(xs: seq<string>)
  {
    forall i, j | 0 <= i < j < |xs| :: xs[i] != xs[j]
  }

  /** The text function of a sheet. */
  function TextOf(sheet: Sheet): Pos -> string
  {
    p => CellText(sheet, p)
  }

  /** The list getAllValuesInRange builds when it goes on from the list acc over the
      cells ps, with f giving each cell's text: a text is added unless it is excepted
      or already listed. */
  function Gather(acc: seq<string>, f: Pos -> string, ps: seq<Pos>, except: set<string>): seq<string>
  {
    if ps == [] then acc
    else
      var d := Gather(acc, f, ps[..|ps| - 1], except);
      var t := f(ps[|ps| - 1]);
      if t in except || t in d then d else d + [t]
  }

  /** Going on over one more cell. */
  lemma GatherSnoc(acc: seq<string>, f: Pos -> string, ps: seq<Pos>, p: Pos, except: set<string>)
    ensures Gather(acc, f, ps + [p], except) ==
      (var d := Gather(acc, f, ps, except); if f(p) in except || f(p) in d then d else d + [f(p)])
  {
    assert (ps + [p])[..|ps|] == ps;
  }

  /** Gathering a then b is gathering a, then going on over b. */
  lemma {:induction false} GatherAppend(acc: seq<string>, f: Pos -> string, a: seq<Pos>, b: seq<Pos>, except: set<string>)
    ensures Gather(acc, f, a + b, except) == Gather(Gather(acc, f, a, except), f, b, except)
    decreases |b|
  {
    if b == [] {
      assert a + b == a;
    } else {
      GatherAppend(acc, f, a, b[..|b| - 1], except);
      assert (a + b)[..|a + b| - 1] == a + b[..|b| - 1];
    }
  }

  /** The list gathered from scratch holds the text of every cell that is not
      excepted, exactly once, and nothing else. */
  lemma {:induction false} GatherExactly(f: Pos -> string, ps: seq<Pos>, except: set<string>)
    ensures var r := Gather([], f, ps, except);
            NoDuplicates(r) && |r| <= |ps|
            && (forall x | x in r :: x !in except)
            && (forall p | p in ps :: f(p) in except || f(p) in r)
            && (forall x | x in r :: exists p | p in ps :: f(p) == x)
    decreases |ps|
  {
    if ps != [] {
      var front := ps[..|ps| - 1];
      GatherExactly(f, front, except);
      assert forall p | p in ps :: p in front || p == ps[|ps| - 1];
      forall x | x in Gather([], f, ps, except) ensures exists p | p in ps :: f(p) == x {
        if x in Gather([], f, front, except) {
          var q :| q in front && f(q) == x;
          assert q in ps;
        } else {
          assert f(ps[|ps| - 1]) == x;
        }
      }
    }
  }

  /** The list only grows as the scan goes on: texts keep the order of their first
      occurrence. */
  lemma {:induction false} GatherPrefix(f: Pos -> string, ps: seq<Pos>, except: set<string>, n: nat)
    requires n <= |ps|
    ensures Gather([], f, ps[..n], except) <= Gather([], f, ps, except)
    decreases |ps| - n
  {
    if n < |ps| {
      GatherPrefix(f, ps[..|ps| - 1], except, n);
      assert ps[..|ps| - 1][..n] == ps[..n];
    } else {
      assert ps[..n] == ps;
    }
  }

  /** The list built from scratch over the cells ps of a sheet. */
  function Collected(sheet: Sheet, ps: seq<Pos>, except: set<string>): seq<string>
  {
    Gather([], TextOf(sheet), ps, except)
  }

  /** The list holds the text of every cell that is not excepted, exactly once, and
      nothing else. */
  lemma CollectedExactly(sheet: Sheet, ps: seq<Pos>, except: set<string>)
    ensures var r := Collected(sheet, ps, except);
            NoDuplicates(r) && |r| <= |ps|
            && (forall x | x in r :: x !in except)
            && (forall p | p in ps :: CellText(sheet, p) in except || CellText(sheet, p) in r)
            && (forall x | x in r :: exists p | p in ps :: CellText(sheet, p) == x)
  {
    var f := TextOf(sheet);
    GatherExactly(f, ps, except);
    forall x | x in Collected(sheet, ps, except) ensures exists p | p in ps :: CellText(sheet, p) == x {
      var p :| p in ps && f(p) == x;
    }
  }

  /** The texts of the range's rectangle, with no repeats. */
  function AllValues(sheet: Sheet, range: Range, except: set<string>): (r: seq<string>)
    ensures NoDuplicates(r) && forall x | x in r :: x !in except
  {
    match RangeBounds(sheet, range)
    case None => []
    case Some(b) =>
      CollectedExactly(sheet, RectData(sheet, b), except);
      Collected(sheet, RectData(sheet, b), except)
  }

  /** getAllValuesInRange(workbook, sheetName, rangeStr, except): a missing sheet and a
      malformed range are errors; an EOF range without data gives the empty list. */
  function AllValuesInRange(workbook: Workbook, sheetName: string, rangeStr: string, except: set<string>): (r: Result<seq<string>>)
    ensures sheetName !in workbook ==> r == Err(IllegalArgument(SheetNotFound(sheetName)))
    ensures sheetName in workbook && ParseRange(rangeStr).Err? ==> r == Err(ParseRange(rangeStr).failure)
    ensures r.Ok? ==> NoDuplicates(r.value) && forall x | x in r.value :: x !in except
  {
    var sheet :- GetSheet(workbook, sheetName);
    var range :- ParseRange(rangeStr);
    Ok(AllValues(sheet, range, except))
  }

  /** Every cell holding data in the rectangle is reported, unless its text is
      excepted, and every reported text is the text of such a cell. */
  lemma AllValuesExactly(sheet: Sheet, range: Range, except: set<string>, b: Bounds)
    requires RangeBounds(sheet, range) == Some(b)
    ensures forall r, c: nat | b.lo <= r <= b.hi && b.c0 <= c <= b.c1 && HasData(sheet, r, c) ::
              CellText(sheet, Pos(r, c)) in except || CellText(sheet, Pos(r, c)) in AllValues(sheet, range, except)
    ensures forall x | x in AllValues(sheet, range, except) ::
              exists p | p in RectData(sheet, b) :: HasData(sheet, p.row, p.col) && CellText(sheet, p) == x
  {
    var ps := RectData(sheet, b);
    CollectedExactly(sheet, ps, except);
    forall r, c: nat | b.lo <= r <= b.hi && b.c0 <= c <= b.c1 && HasData(sheet, r, c)
      ensures Pos(r, c) in ps
    {
      RectDataExactly(sheet, b, Pos(r, c));
    }
    forall x | x in AllValues(sheet, range, except)
      ensures exists p | p in ps :: HasData(sheet, p.row, p.col) && CellText(sheet, p) == x
    {
      var p :| p in ps && CellText(sheet, p) == x;
      RectDataExactly(sheet, b, p);
    }
  }

  /** getAllValuesInRange: the sheet, the range, the EOF scan, then the nested loops. */
  method GetAllValuesInRange(workbook: Workbook, sheetName: string, rangeStr: string, except: set<string>)
    returns (r: Result<seq<string>>)
    ensures r == AllValuesInRange(workbook, sheetName, rangeStr, except)
  {
    var sheet :- GetSheet(workbook, sheetName);
    var range :- ParseRange(rangeStr);
    var b := ScanBounds(sheet, range);
    if b.None? {
      return Ok([]);
    }
    var values := CollectTexts(sheet, b.value, except);
    return Ok(values);
  }

  /** The nested loops of getAllValuesInRange. */
  method CollectTexts(sheet: Sheet, b: Bounds, except: set<string>) returns (values: seq<string>)
    ensures values == Collected(sheet, RectData(sheet, b), except)
  {
    values := [];
    var row := b.lo;
    while row <= b.hi
      invariant b.lo <= row && (row <= b.hi + 1 || row == b.lo)
      invariant values == Collected(sheet, RectData(sheet, b.(hi := row - 1)), except)
      decreases b.hi - row
    {
      CollectRowsStep(sheet, b, row, except, values);
      values := CollectRowTexts(sheet, row, b.c0, b.c1, except, values);
      row := row + 1;
    }
    RectDataDone(sheet, b, row);
  }

  /** One more row of the range: gathering its cells after the rows above gathers the taller range. */
  lemma CollectRowsStep(sheet: Sheet, b: Bounds, row: int, except: set<string>, values: seq<string>)
    requires b.lo <= row
    requires values == Collected(sheet, RectData(sheet, b.(hi := row - 1)), except)
    ensures Gather(values, TextOf(sheet), RowData(sheet, row, b.c0, b.c1), except) ==
      Collected(sheet, RectData(sheet, b.(hi := row)), except)
  {
    RectDataSnoc(sheet, b, row);
    GatherAppend([], TextOf(sheet), RectData(sheet, b.(hi := row - 1)), RowData(sheet, row, b.c0, b.c1), except);
  }

  /** One more column of a row appends that cell when it holds data. */
  lemma RowDataStep(sheet: Sheet, row: int, c0: nat, col: int)
    requires c0 <= col
    ensures RowData(sheet, row, c0, col) ==
      RowData(sheet, row, c0, col - 1) + (if HasData(sheet, row, col) then [Pos(row, col as nat)] else [])
  {
  }

  /** The inner loop of getAllValuesInRange over the columns c0..c1 of one row. */
  method CollectRowTexts(sheet: Sheet, row: int, c0: nat, c1: nat, except: set<string>, start: seq<string>)
    returns (values: seq<string>)
    ensures values == Gather(start, TextOf(sheet), RowData(sheet, row, c0, c1), except)
  {
    values := start;
    var col: int := c0;
    ghost var seen: seq<Pos> := [];
    while col <= c1
      invariant c0 <= col && (col <= c1 + 1 || col == c0)
      invariant seen == RowData(sheet, row, c0, col - 1)
      invariant values == Gather(start, TextOf(sheet), seen, except)
      decreases c1 - col
    {
      RowDataStep(sheet, row, c0, col);
      if HasData(sheet, row, col) {
        var p := Pos(row, col as nat);
        var t := CellText(sheet, p);
        GatherSnoc(start, TextOf(sheet), seen, p, except);
        if t !in except && t !in values {
          values := values + [t];
        }
        seen := seen + [p];
      } else {
        assert seen + [] == seen;
      }
      col := col + 1;
    }
    RowDataDone(sheet, row, c0, c1, col);
  }

  // ---------------------------------------------------------------- checkDuplicateValuesInRange

  /** The value a scan records for a cell. */
  function CellValue(sheet: Sheet, p: Pos): Value
  {
    GetCellValue(CellAt(sheet, p.row, p.col))
  }

  /** The position text the scan writes: column letters, then the 1-based row. */
  function PosName(p: Pos): string
  {
    ColString(p.col) + IntToString(p.row + 1)
  }

  /** Set.contains on the except values: they are strings, so only a text value can
      match one. */
  predicate Excepted(v: Value, except: set<string>)
  {
    v.Text? && v.s in except
  }

  /** The value function of a sheet. */
  function ValueAt(sheet: Sheet): Pos -> Value
  {
    p => CellValue(sheet, p)
  }

  /** The naming function of the scan. */
  const Label: Pos -> string := p => PosName(p)

  /** The reference definition: the positions, in scan order, of the cells ps whose
      value (by f) is v. */
  function Positions(f: Pos -> Value, nameOf: Pos -> string, ps: seq<Pos>, except: set<string>, v: Value): seq<string>
  {
    if ps == [] then []
    else
      var p := ps[|ps| - 1];
      Positions(f, nameOf, ps[..|ps| - 1], except, v)
        + (if f(p) == v && !Excepted(v, except) then [nameOf(p)] else [])
  }

  /** The map the grouping loops fill when they go on from acc over the cells ps: each
      value that is not excepted gets the position of each cell holding it appended. */
  function Group(acc: map<Value, seq<string>>, f: Pos -> Value, nameOf: Pos -> string, ps: seq<Pos>, except: set<string>): map<Value, seq<string>>
  {
    if ps == [] then acc
    else
      var g := Group(acc, f, nameOf, ps[..|ps| - 1], except);
      var p := ps[|ps| - 1];
      var v := f(p);
      if Excepted(v, except) then g
      else g[v := (if v in g then g[v] else []) + [nameOf(p)]]
  }

  /** The map filled from scratch over the cells ps of a sheet. */
  function Groups(sheet: Sheet, ps: seq<Pos>, except: set<string>): map<Value, seq<string>>
  {
    Group(map[], ValueAt(sheet), Label, ps, except)
  }

  lemma GroupSnoc(acc: map<Value, seq<string>>, f: Pos -> Value, nameOf: Pos -> string, ps: seq<Pos>, p: Pos, except: set<string>)
    ensures Group(acc, f, nameOf, ps + [p], except) ==
      (var g := Group(acc, f, nameOf, ps, except);
       var v := f(p);
       if Excepted(v, except) then g else g[v := (if v in g then g[v] else []) + [nameOf(p)]])
  {
    assert (ps + [p])[..|ps|] == ps;
  }

  /** Grouping a then b is grouping a, then going on over b. */
  lemma {:induction false} GroupAppend(acc: map<Value, seq<string>>, f: Pos -> Value, nameOf: Pos -> string, a: seq<Pos>, b: seq<Pos>, except: set<string>)
    ensures Group(acc, f, nameOf, a + b, except) == Group(Group(acc, f, nameOf, a, except), f, nameOf, b, except)
    decreases |b|
  {
    if b == [] {
      assert a + b == a;
    } else {
      GroupAppend(acc, f, nameOf, a, b[..|b| - 1], except);
      assert (a + b)[..|a + b| - 1] == a + b[..|b| - 1];
    }
  }

  /** The map filled from scratch holds, for each value, exactly its positions. */
  lemma {:induction false} GroupIsPositions(f: Pos -> Value, nameOf: Pos -> string, ps: seq<Pos>, except: set<string>, v: Value)
    ensures v in Group(map[], f, nameOf, ps, except) <==> Positions(f, nameOf, ps, except, v) != []
    ensures v in Group(map[], f, nameOf, ps, except) ==> Group(map[], f, nameOf, ps, except)[v] == Positions(f, nameOf, ps, except, v)
    decreases |ps|
  {
    if ps != [] {
      GroupIsPositions(f, nameOf, ps[..|ps| - 1], except, v);
    }
  }

  /** The second loop: the entries with more than one position. */
  function Duplicates(groups: map<Value, seq<string>>): map<Value, seq<string>>
  {
    map v | v in groups && |groups[v]| > 1 :: groups[v]
  }

  /** The duplicates of the range's rectangle. */
  function DuplicatesOf(sheet: Sheet, range: Range, except: set<string>): map<Value, seq<string>>
  {
    match RangeBounds(sheet, range)
    case None => map[]
    case Some(b) => Duplicates(Groups(sheet, RectData(sheet, b), except))
  }

  /** checkDuplicateValuesInRange(sheet, rangeStr, except). */
  function DuplicateValues(sheet: Sheet, rangeStr: string, except: set<string>): (r: Result<map<Value, seq<string>>>)
    ensures r.Err? <==> ParseRange(rangeStr).Err?
    ensures r.Err? ==> r.failure == ParseRange(rangeStr).failure
  {
    var range :- ParseRange(rangeStr);
    Ok(DuplicatesOf(sheet, range, except))
  }

  /** The result holds exactly the values at two or more non-excepted cells of the
      rectangle, each with all its positions in scan order; excepted text never appears. */
  lemma DuplicatesExactly(sheet: Sheet, b: Bounds, except: set<string>, v: Value)
    ensures var dups := Duplicates(Groups(sheet, RectData(sheet, b), except));
            (v in dups <==> |Positions(ValueAt(sheet), Label, RectData(sheet, b), except, v)| >= 2)
            && (v in dups ==> dups[v] == Positions(ValueAt(sheet), Label, RectData(sheet, b), except, v))
    ensures Excepted(v, except) ==> v !in Duplicates(Groups(sheet, RectData(sheet, b), except))
  {
    GroupIsPositions(ValueAt(sheet), Label, RectData(sheet, b), except, v);
    if Excepted(v, except) {
      ExceptedHasNoPositions(ValueAt(sheet), Label, RectData(sheet, b), except, v);
    }
  }

  lemma {:induction false} ExceptedHasNoPositions(f: Pos -> Value, nameOf: Pos -> string, ps: seq<Pos>, except: set<string>, v: Value)
    requires Excepted(v, except)
    ensures Positions(f, nameOf, ps, except, v) == []
    decreases |ps|
  {
    if ps != [] {
      ExceptedHasNoPositions(f, nameOf, ps[..|ps| - 1], except, v);
    }
  }

  /** A value's positions name cells among ps that hold that value. */
  lemma {:induction false} PositionsNameCells(f: Pos -> Value, nameOf: Pos -> string, ps: seq<Pos>, except: set<string>, v: Value, name: string)
    requires name in Positions(f, nameOf, ps, except, v)
    ensures exists p | p in ps :: f(p) == v && nameOf(p) == name
    decreases |ps|
  {
    var p := ps[|ps| - 1];
    if name in Positions(f, nameOf, ps[..|ps| - 1], except, v) {
      PositionsNameCells(f, nameOf, ps[..|ps| - 1], except, v, name);
      var q :| q in ps[..|ps| - 1] && f(q) == v && nameOf(q) == name;
      assert q in ps;
    } else {
      assert p in ps && f(p) == v && nameOf(p) == name;
    }
  }

  /** checkDuplicateValuesInRange(sheet, …): the range, the EOF scan, the grouping
      loops, then the filtering loop. */
  method CheckDuplicateValuesInRange(sheet: Sheet, rangeStr: string, except: set<string>)
    returns (r: Result<map<Value, seq<string>>>)
    ensures r == DuplicateValues(sheet, rangeStr, except)
  {
    var range :- ParseRange(rangeStr);
    var b := ScanBounds(sheet, range);
    if b.None? {
      return Ok(map[]);
    }
    var groups := GroupCells(sheet, b.value, except);
    var dups := FilterDuplicates(groups);
    return Ok(dups);
  }

  /** The nested loops of checkDuplicateValuesInRange that fill valuePositions. */
  method GroupCells(sheet: Sheet, b: Bounds, except: set<string>) returns (groups: map<Value, seq<string>>)
    ensures groups == Groups(sheet, RectData(sheet, b), except)
  {
    groups := map[];
    var row := b.lo;
    while row <= b.hi
      invariant b.lo <= row && (row <= b.hi + 1 || row == b.lo)
      invariant groups == Groups(sheet, RectData(sheet, b.(hi := row - 1)), except)
      decreases b.hi - row
    {
      GroupRowsStep(sheet, b, row, except, groups);
      groups := GroupRowCells(sheet, row, b.c0, b.c1, except, groups);
      row := row + 1;
    }
    RectDataDone(sheet, b, row);
  }

  /** One more row of the range: grouping its cells after the rows above groups the taller range. */
  lemma GroupRowsStep(sheet: Sheet, b: Bounds, row: int, except: set<string>, groups: map<Value, seq<string>>)
    requires b.lo <= row
    requires groups == Groups(sheet, RectData(sheet, b.(hi := row - 1)), except)
    ensures Group(groups, ValueAt(sheet), Label, RowData(sheet, row, b.c0, b.c1), except) ==
      Groups(sheet, RectData(sheet, b.(hi := row)), except)
  {
    RectDataSnoc(sheet, b, row);
    GroupAppend(map[], ValueAt(sheet), Label, RectData(sheet, b.(hi := row - 1)), RowData(sheet, row, b.c0, b.c1), except);
  }

  /** The body of checkDuplicateValuesInRange's inner loop for a cell holding data: unless
      its value is excepted, the cell's name is appended to its value's list, which is
      created empty when the value is new. */
  method GroupCell(sheet: Sheet, p: Pos, except: set<string>, groups: map<Value, seq<string>>)
    returns (groups': map<Value, seq<string>>)
    ensures groups' == Group(groups, ValueAt(sheet), Label, [p], except)
  {
    GroupSnoc(groups, ValueAt(sheet), Label, [], p, except);
    assert [] + [p] == [p];
    var v := CellValue(sheet, p);
    groups' := groups;
    if !Excepted(v, except) {
      var positions := if v in groups then groups[v] else [];
      groups' := groups[v := positions + [PosName(p)]];
    }
  }

  /** The inner loop of checkDuplicateValuesInRange over the columns c0..c1 of one row. */
  method GroupRowCells(sheet: Sheet, row: int, c0: nat, c1: nat, except: set<string>,
                       start: map<Value, seq<string>>) returns (groups: map<Value, seq<string>>)
    ensures groups == Group(start, ValueAt(sheet), Label, RowData(sheet, row, c0, c1), except)
  {
    groups := start;
    var col: int := c0;
    ghost var seen: seq<Pos> := [];
    while col <= c1
      invariant c0 <= col && (col <= c1 + 1 || col == c0)
      invariant seen == RowData(sheet, row, c0, col - 1)
      invariant groups == Group(start, ValueAt(sheet), Label, seen, except)
      decreases c1 - col
    {
      RowDataStep(sheet, row, c0, col);
      if HasData(sheet, row, col) {
        var p := Pos(row, col as nat);
        GroupAppend(start, ValueAt(sheet), Label, seen, [p], except);
        groups := GroupCell(sheet, p, except, groups);
        seen := seen + [p];
      } else {
        assert seen + [] == seen;
      }
      col := col + 1;
    }
    RowDataDone(sheet, row, c0, c1, col);
  }

  /** The loop over valuePositions' entries that keeps those with several positions. */
  method FilterDuplicates(groups: map<Value, seq<string>>) returns (dups: map<Value, seq<string>>)
    ensures dups == Duplicates(groups)
  {
    dups := map[];
    var keys := groups.Keys;
    while keys != {}
      invariant keys <= groups.Keys
      invariant dups == map v | v in groups && v !in keys && |groups[v]| > 1 :: groups[v]
      decreases keys
    {
      var v :| v in keys;
      if |groups[v]| > 1 {
        dups := dups[v := groups[v]];
      }
      keys := keys - {v};
    }
  }

  /** checkDuplicateValuesInRange(workbook, sheetName, …): the sheet must exist. */
  function DuplicateValuesIn(workbook: Workbook, sheetName: string, rangeStr: string, except: set<string>)
    : (r: Result<map<Value, seq<string>>>)
    ensures sheetName !in workbook ==> r == Err(IllegalArgument(SheetNotFound(sheetName)))
    ensures sheetName in workbook ==> r == DuplicateValues(workbook[sheetName], rangeStr, except)
  {
    var sheet :- GetSheet(workbook, sheetName);
    DuplicateValues(sheet, rangeStr, except)
  }
}
