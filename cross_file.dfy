/** processMutiFileExcelToWssResult: two workbooks, the CROSSFILEDUPLICATED and
    CROSSFILECOMPARE requests among the parameters, and the two checks behind them,
    checkCrossFileEqualCondition (the values both files hold) and checkCrossCompare (the
    sums of the numeric values differ). The first check that finds something ends the
    call; with no finding the result is the empty object. */
module CrossFile {
  import opened Outcomes
  import opened Strings
  import opened Cells
  import opened ExcelReader
  import opened ExtractParams
  import opened RangeScans
  import opened Variables
  import opened WorkSheetService

  const NeedTwoFiles := "ต้องระบุ 2 ไฟล์สำหรับเปรียบเทียบ"
  const NeedTwoConfigs := "CROSSFILEDUPLICATED ต้องมี 2 ชุดข้อมูล"
  const NoWorkbook := "ไม่พบ Workbook สำหรับไฟล์: "
  const DuplicatedKind := "CROSSFILEDUPLICATED"
  const CompareKind := "CROSSFILECOMPARE"
  const EqualWord := "EQUAL"
  const SharedCode := "CROSS_FILE_DUPLICATED"
  const SharedMessage := "ข้อมูลในสองไฟล์มีข้อมูลซ้ำ"
  const UnequalCode := "CROSS_FILE_COMPARE"
  const UnequalMessage := "ข้อมูลในสองไฟล์มีค่าไม่เท่ากัน"

  // ---------------------------------------------------------------- requests

  /** One entry of the `validates` set: its type and the parsed directive. */
  datatype CrossValidate = Duplicated(detail: CrossFileDirective) | Compared(detail: CrossFileDirective)

  /** The service as the code is written, or with the two corrections of the Findings:
      CROSSFILEDUPLICATED tuples read from inside the parentheses, and CROSSFILECOMPARE
      adding up every cell. The methods below run the code as written. */
  datatype Reading = AsWritten | Corrected

  /** extractCrossFileCompare under a reading. */
  function Extract(param: string, kind: string, reading: Reading): Result<CrossFileDirective>
  {
    if reading.AsWritten? then CrossFileCompareAsWritten(param, kind) else CrossFileCompare(param, kind)
  }

  /** One parameter: a CROSSFILEDUPLICATED( or CROSSFILECOMPARE( directive becomes a
      request, any other parameter is ignored, and a malformed directive throws. */
  function CrossRequest(param: string, reading: Reading): (r: Result<Option<CrossValidate>>)
    ensures !StartsWith(param, DuplicatedPrefix) && !StartsWith(param, ComparePrefix) ==> r == Ok(None)
    ensures r.Ok? && r.value.Some? ==> (r.value.value.Compared? <==> r.value.value.detail.condition.Some?)
    ensures StartsWith(param, DuplicatedPrefix) && r.Ok? ==> r.value.Some? && r.value.value.Duplicated?
  {
    if StartsWith(param, DuplicatedPrefix) then
      var d :- Extract(param, DuplicatedKind, reading);
      Ok(Some(Duplicated(d)))
    else if StartsWith(param, ComparePrefix) then
      var d :- Extract(param, CompareKind, reading);
      Ok(Some(Compared(d)))
    else Ok(None)
  }

  /** A Java loop that adds to a HashSet: each element adds one entry, adds nothing,
      or throws, and the first exception ends the loop. */
  function SetFold<A, T>(xs: seq<A>, f: A -> Result<Option<T>>): Result<set<T>>
  {
    if xs == [] then Ok({})
    else
      var front :- SetFold(xs[..|xs| - 1], f);
      var v :- f(xs[|xs| - 1]);
      Ok(if v.Some? then front + {v.value} else front)
  }

  /** The loop throws exactly when some element throws, and otherwise holds exactly the
      entries the elements add. */
  lemma {:induction false} SetFoldExactly<A, T>(xs: seq<A>, f: A -> Result<Option<T>>)
    ensures SetFold(xs, f).Err? <==> exists k | 0 <= k < |xs| :: f(xs[k]).Err?
    ensures SetFold(xs, f).Ok? ==> forall v ::
      v in SetFold(xs, f).value <==> exists k | 0 <= k < |xs| :: f(xs[k]) == Ok(Some(v))
  {
    if xs != [] {
      var front := xs[..|xs| - 1];
      SetFoldExactly(front, f);
      assert forall k | 0 <= k < |front| :: front[k] == xs[k];
      if SetFold(front, f).Ok? && f(xs[|xs| - 1]).Ok? {
        forall v | exists k | 0 <= k < |xs| :: f(xs[k]) == Ok(Some(v))
          ensures v in SetFold(xs, f).value
        {
          var k :| 0 <= k < |xs| && f(xs[k]) == Ok(Some(v));
          if k < |front| {
            assert f(front[k]) == Ok(Some(v));
          }
        }
      }
    }
  }

  /** Once the loop has thrown, the rest of the list does not matter. */
  lemma {:induction false} SetFoldErrStays<A, T>(xs: seq<A>, j: nat, f: A -> Result<Option<T>>)
    requires j <= |xs| && SetFold(xs[..j], f).Err?
    ensures SetFold(xs, f) == SetFold(xs[..j], f)
    decreases |xs| - j
  {
    if j < |xs| {
      assert xs[..j + 1][..j] == xs[..j];
      SetFoldErrStays(xs, j + 1, f);
    } else {
      assert xs[..j] == xs;
    }
  }

  /** The HashSet of requests the parameter loop builds. */
  function CrossRequests(params: seq<string>, reading: Reading): Result<set<CrossValidate>>
  {
    SetFold(params, p => CrossRequest(p, reading))
  }

  /** The parameter loop, parsing each directive with extractCrossFileCompare as written. */
  method CollectCrossRequests(params: seq<string>) returns (r: Result<set<CrossValidate>>)
    ensures r == CrossRequests(params, AsWritten)
  {
    var request := p => CrossRequest(p, AsWritten);
    var validates: set<CrossValidate> := {};
    for i := 0 to |params|
      invariant SetFold(params[..i], request) == Ok(validates)
    {
      assert params[..i + 1][..i] == params[..i];
      var step := ExtractRequest(params[i]);
      if step.Err? {
        SetFoldErrStays(params, i + 1, request);
        return Err(step.failure);
      }
      if step.value.Some? {
        validates := validates + {step.value.value};
      }
    }
    assert params[..|params|] == params;
    return Ok(validates);
  }

  /** The loop body: the directive's type by its prefix, then extractCrossFileCompare. */
  method ExtractRequest(param: string) returns (r: Result<Option<CrossValidate>>)
    ensures r == CrossRequest(param, AsWritten)
  {
    if StartsWith(param, DuplicatedPrefix) {
      var d :- ExtractCrossFileCompare(param, DuplicatedKind);
      return Ok(Some(Duplicated(d)));
    } else if StartsWith(param, ComparePrefix) {
      var d :- ExtractCrossFileCompare(param, CompareKind);
      return Ok(Some(Compared(d)));
    }
    return Ok(None);
  }

  // ---------------------------------------------------------------- reading the two files

  /** Items keyed by a function of their names, a later item replacing an earlier one
      with the same key. */
  function LastByKey<W>(names: seq<string>, items: seq<W>, key: string -> string): map<string, W>
    requires |names| == |items|
  {
    if names == [] then map[]
    else
      var n := |names| - 1;
      LastByKey(names[..n], items[..n], key)[key(names[n]) := items[n]]
  }

  /** A key is present exactly when some name has it, and it maps to the item of the
      last such name. */
  lemma {:induction false} LastByKeyExactly<W>(names: seq<string>, items: seq<W>, key: string -> string, k: string)
    requires |names| == |items|
    ensures k in LastByKey(names, items, key) <==> exists i | 0 <= i < |names| :: key(names[i]) == k
    ensures k in LastByKey(names, items, key) ==>
      exists i | 0 <= i < |names| :: key(names[i]) == k
        && LastByKey(names, items, key)[k] == items[i]
        && forall j | i < j < |names| :: key(names[j]) != k
  {
    if names != [] {
      var n := |names| - 1;
      var front := names[..n];
      LastByKeyExactly(front, items[..n], key, k);
      assert forall i | 0 <= i < n :: front[i] == names[i];
      if key(names[n]) != k && k in LastByKey(names, items, key) {
        var i :| 0 <= i < n && key(front[i]) == k
          && LastByKey(front, items[..n], key)[k] == items[..n][i]
          && forall j | i < j < n :: key(front[j]) != k;
        assert key(names[i]) == k && LastByKey(names, items, key)[k] == items[i];
      }
    }
  }

  /** fileWorkbookMap: each file's base name to its workbook, a later file with the same
      base name replacing an earlier one. */
  function FileWorkbooks(fileNames: seq<string>, workbooks: seq<Workbook>): map<string, Workbook>
    requires |fileNames| == |workbooks|
  {
    LastByKey(fileNames, workbooks, BaseName)
  }

  /** The map loop of both checks. */
  method FileWorkbookMap(fileNames: seq<string>, workbooks: seq<Workbook>) returns (m: map<string, Workbook>)
    requires |fileNames| == |workbooks|
    ensures m == FileWorkbooks(fileNames, workbooks)
  {
    m := map[];
    for i := 0 to |fileNames|
      invariant m == LastByKey(fileNames[..i], workbooks[..i], BaseName)
    {
      assert fileNames[..i + 1][..i] == fileNames[..i] && workbooks[..i + 1][..i] == workbooks[..i];
      m := m[BaseName(fileNames[i]) := workbooks[i]];
    }
    assert fileNames[..|fileNames|] == fileNames && workbooks[..|workbooks|] == workbooks;
  }

  /** How a check reads the range of one configuration from its workbook. */
  type Reader = (Workbook, FileConfig) -> Result<seq<string>>

  /** The workbook of one configuration, looked up by file name, read with `read`. */
  function ConfigRead(files: map<string, Workbook>, cfg: FileConfig, read: Reader): Result<seq<string>>
  {
    if cfg.fileName in files then read(files[cfg.fileName], cfg)
    else Err(IllegalArgument(NoWorkbook + cfg.fileName))
  }

  /** The reading both checks share: exactly two configurations, each naming one of the
      files by base name. */
  function ReadPair(fileNames: seq<string>, workbooks: seq<Workbook>, configs: seq<FileConfig>, read: Reader)
    : (r: Result<(seq<string>, seq<string>)>)
    requires |fileNames| == |workbooks|
    ensures |configs| != 2 ==> r == Err(IllegalArgument(NeedTwoConfigs))
    ensures |configs| == 2 && configs[0].fileName !in FileWorkbooks(fileNames, workbooks) ==>
      r == Err(IllegalArgument(NoWorkbook + configs[0].fileName))
    ensures r.Ok? ==> && ConfigRead(FileWorkbooks(fileNames, workbooks), configs[0], read) == Ok(r.value.0)
                      && ConfigRead(FileWorkbooks(fileNames, workbooks), configs[1], read) == Ok(r.value.1)
  {
    if |configs| != 2 then Err(IllegalArgument(NeedTwoConfigs))
    else
      var files := FileWorkbooks(fileNames, workbooks);
      var values1 :- ConfigRead(files, configs[0], read);
      var values2 :- ConfigRead(files, configs[1], read);
      Ok((values1, values2))
  }

  /** getAllValuesInRange with no excepted values. */
  const DistinctValues: Reader := (wb: Workbook, cfg: FileConfig) => AllValuesInRange(wb, cfg.sheetName, cfg.rangeStr, {})

  /** One turn of the reading loop: the configuration's workbook, then its values. */
  method ReadConfig(files: map<string, Workbook>, cfg: FileConfig) returns (r: Result<seq<string>>)
    ensures r == ConfigRead(files, cfg, DistinctValues)
  {
    if cfg.fileName !in files {
      return Err(IllegalArgument(NoWorkbook + cfg.fileName));
    }
    r := GetAllValuesInRange(files[cfg.fileName], cfg.sheetName, cfg.rangeStr, {});
  }

  /** The reading loop of both checks, its two turns written out. */
  method ReadConfigPair(fileNames: seq<string>, workbooks: seq<Workbook>, configs: seq<FileConfig>)
    returns (r: Result<(seq<string>, seq<string>)>)
    requires |fileNames| == |workbooks|
    ensures r == ReadPair(fileNames, workbooks, configs, DistinctValues)
  {
    if |configs| != 2 {
      return Err(IllegalArgument(NeedTwoConfigs));
    }
    var files := FileWorkbookMap(fileNames, workbooks);
    var values1 :- ReadConfig(files, configs[0]);
    var values2 :- ReadConfig(files, configs[1]);
    return Ok((values1, values2));
  }

  // ---------------------------------------------------------------- checkCrossFileEqualCondition

  /** checkCrossFileEqualCondition: the values of the first file's range that the second
      file's range also holds. */
  function EqualCondition(fileNames: seq<string>, workbooks: seq<Workbook>, configs: seq<FileConfig>): Result<seq<string>>
    requires |fileNames| == |workbooks|
  {
    var lists :- ReadPair(fileNames, workbooks, configs, DistinctValues);
    Ok(Common(lists.1, lists.0))
  }

  /** Filtering a list without repeats keeps it without repeats. */
  lemma {:induction false} CommonNoDuplicates(list1: seq<string>, list2: seq<string>)
    requires NoDuplicates(list2)
    ensures NoDuplicates(Common(list1, list2))
    decreases |list2|
  {
    if list2 != [] {
      var front := list2[..|list2| - 1];
      CommonNoDuplicates(list1, front);
      CommonExactly(list1, front);
    }
  }

  /** The check reports each value that both files' ranges hold, once, and nothing else. */
  lemma EqualConditionExactly(fileNames: seq<string>, workbooks: seq<Workbook>, configs: seq<FileConfig>)
    requires |fileNames| == |workbooks|
    requires ReadPair(fileNames, workbooks, configs, DistinctValues).Ok?
    ensures var lists := ReadPair(fileNames, workbooks, configs, DistinctValues).value;
            var r := EqualCondition(fileNames, workbooks, configs);
            && r.Ok? && NoDuplicates(r.value)
            && forall x :: x in r.value <==> x in lists.0 && x in lists.1
  {
    var files := FileWorkbooks(fileNames, workbooks);
    var lists := ReadPair(fileNames, workbooks, configs, DistinctValues).value;
    var wb := files[configs[0].fileName];
    assert AllValuesInRange(wb, configs[0].sheetName, configs[0].rangeStr, {}) == Ok(lists.0);
    CommonNoDuplicates(lists.1, lists.0);
    CommonExactly(lists.1, lists.0);
  }

  method CheckCrossFileEqualCondition(fileNames: seq<string>, workbooks: seq<Workbook>, configs: seq<FileConfig>)
    returns (r: Result<seq<string>>)
    requires |fileNames| == |workbooks|
    ensures r == EqualCondition(fileNames, workbooks, configs)
  {
    var lists :- ReadConfigPair(fileNames, workbooks, configs);
    var notMatched := CommonValues(lists.1, lists.0);
    return Ok(notMatched);
  }

  // ---------------------------------------------------------------- checkCrossCompare

  /** `-?\d+(\.\d+)?` without its sign: digits, then optionally a point and digits. */
  predicate IsUnsignedDecimal(s: string)
  {
    var k := IndexOfChar(s, '.');
    if k < 0 then s != [] && AllDigits(s)
    else 0 < k < |s| - 1 && AllDigits(s[..k]) && AllDigits(s[k + 1..])
  }

  /** The pattern `^-?\d+(\.\d+)?$`, with \d the ASCII digits as in java.util.regex. */
  predicate IsDecimal(s: string)
  {
    if s != [] && s[0] == '-' then IsUnsignedDecimal(s[1..]) else IsUnsignedDecimal(s)
  }

  function Pow10(n: nat): (p: nat)
    ensures p >= 1
  {
    if n == 0 then 1 else 10 * Pow10(n - 1)
  }

  function UnsignedValue(s: string): real
    requires IsUnsignedDecimal(s)
  {
    var k := IndexOfChar(s, '.');
    if k < 0 then ParseDigits(s) as real
    else ParseDigits(s[..k]) as real + (ParseDigits(s[k + 1..]) as real) / (Pow10(|s| - k - 1) as real)
  }

  /** The exact value of decimal text (Double.parseDouble without its rounding). */
  function DecimalValue(s: string): real
    requires IsDecimal(s)
  {
    if s != [] && s[0] == '-' then -UnsignedValue(s[1..]) else UnsignedValue(s)
  }

  /** Digits alone contain no point. */
  lemma NoPointInDigits(s: string)
    requires AllDigits(s)
    ensures IndexOfChar(s, '.') < 0
  {
  }

  /** The text an integer cell reads as is decimal, with the integer's value. */
  lemma IntegerTextIsDecimal(i: int)
    ensures IsDecimal(IntToString(i)) && DecimalValue(IntToString(i)) == i as real
  {
    var s := IntToString(i);
    if i < 0 {
      var digits := NatToString(-i);
      assert s[1..] == digits;
      NoPointInDigits(digits);
      ParseDigitsOfNatToString(-i);
    } else {
      DigitsAreDecimal(s);
      ParseDigitsOfNatToString(i);
    }
  }

  /** What a value adds to its file's sum: its trimmed text's value when that is decimal,
      nothing otherwise. */
  function Contribution(v: string): real
  {
    var t := Trim(v);
    if IsDecimal(t) then DecimalValue(t) else 0.0
  }

  /** The sum of the contributions of a list's values. */
  function DecimalSum(xs: seq<string>): real
  {
    if xs == [] then 0.0 else DecimalSum(xs[..|xs| - 1]) + Contribution(xs[|xs| - 1])
  }

  lemma {:induction false} DecimalSumAppend(a: seq<string>, b: seq<string>)
    ensures DecimalSum(a + b) == DecimalSum(a) + DecimalSum(b)
    decreases |b|
  {
    if b == [] {
      assert a + b == a;
    } else {
      var front := b[..|b| - 1];
      assert (a + b)[..|a + b| - 1] == a + front;
      DecimalSumAppend(a, front);
    }
  }

  /** The sum does not depend on the order in which the values are visited, so the
      HashSet's iteration order does not matter. */
  lemma {:induction false} DecimalSumOrderFree(a: seq<string>, b: seq<string>)
    requires multiset(a) == multiset(b)
    ensures DecimalSum(a) == DecimalSum(b)
    decreases |a|
  {
    if a != [] {
      var front := a[..|a| - 1];
      var x := a[|a| - 1];
      assert a == front + [x];
      assert x in multiset(b);
      var k :| 0 <= k < |b| && b[k] == x;
      assert b == b[..k] + [x] + b[k + 1..];
      var rest := b[..k] + b[k + 1..];
      assert multiset(a) == multiset(front) + multiset{x};
      assert multiset(b) == multiset(b[..k]) + multiset{x} + multiset(b[k + 1..]);
      assert multiset(rest) == multiset(b[..k]) + multiset(b[k + 1..]);
      assert multiset(front) == multiset(a) - multiset{x};
      assert multiset(rest) == multiset(b) - multiset{x};
      DecimalSumOrderFree(front, rest);
      DecimalSumAppend(b[..k] + [x], b[k + 1..]);
      DecimalSumAppend(b[..k], [x]);
      DecimalSumAppend(b[..k], b[k + 1..]);
      assert DecimalSum([x]) == Contribution(x) by { assert [x][..0] == []; }
    }
  }

  /** The lists the check adds to its two HashSets carry no repeats, so the sum over
      either list is the sum over its set, visited in any order. */
  lemma DistinctSumIsSetSum(a: seq<string>, b: seq<string>)
    requires NoDuplicates(a) && NoDuplicates(b)
    requires forall x :: x in a <==> x in b
    ensures DecimalSum(a) == DecimalSum(b)
  {
    DistinctMultiset(a);
    DistinctMultiset(b);
    assert multiset(a) == multiset(b) by {
      forall x ensures multiset(a)[x] == multiset(b)[x] {
        if x in a {
          assert x in multiset(b);
        } else {
          assert x !in multiset(a) && x !in multiset(b);
        }
      }
    }
    DecimalSumOrderFree(a, b);
  }

  /** A list without repeats holds each of its values once. */
  lemma {:induction false} DistinctMultiset(a: seq<string>)
    requires NoDuplicates(a)
    ensures forall x | x in a :: multiset(a)[x] == 1
  {
    if a != [] {
      var front := a[..|a| - 1];
      assert a == front + [a[|a| - 1]];
      DistinctMultiset(front);
      assert a[|a| - 1] !in front;
    }
  }

  /** The check's result: one mismatch when the sums differ, none when they agree. */
  function SumMismatch(sum1: real, sum2: real): (r: seq<Mismatch>)
    ensures r == [] <==> sum1 == sum2
    ensures r != [] ==> r == [Unequal(sum1, sum2)]
  {
    if sum1 != sum2 then [Unequal(sum1, sum2)] else []
  }

  /** checkCrossCompare as written: each file's sum runs over the HashSet of its range's
      values, so a value that appears in several cells is added once. */
  function CrossCompareAsWritten(fileNames: seq<string>, workbooks: seq<Workbook>, configs: seq<FileConfig>)
    : Result<seq<Mismatch>>
    requires |fileNames| == |workbooks|
  {
    var lists :- ReadPair(fileNames, workbooks, configs, DistinctValues);
    Ok(SumMismatch(DecimalSum(lists.0), DecimalSum(lists.1)))
  }

  /** The texts of the given cells, one per cell. */
  function TextsAt(sheet: Sheet, ps: seq<Pos>): (ts: seq<string>)
    ensures |ts| == |ps| && forall k | 0 <= k < |ps| :: ts[k] == CellText(sheet, ps[k])
  {
    if ps == [] then [] else TextsAt(sheet, ps[..|ps| - 1]) + [CellText(sheet, ps[|ps| - 1])]
  }

  /** The text of every cell of the range that holds data, repeats included. */
  function AllTextsInRange(workbook: Workbook, sheetName: string, rangeStr: string): Result<seq<string>>
  {
    var sheet :- GetSheet(workbook, sheetName);
    var range :- ParseRange(rangeStr);
    match RangeBounds(sheet, range)
    case None => Ok([])
    case Some(b) => Ok(TextsAt(sheet, RectData(sheet, b)))
  }

  /** Reading every text fails exactly as getAllValuesInRange does, and finds the same
      values, only with their repeats. */
  lemma AllTextsAgree(workbook: Workbook, sheetName: string, rangeStr: string)
    ensures AllTextsInRange(workbook, sheetName, rangeStr).Err? <==> AllValuesInRange(workbook, sheetName, rangeStr, {}).Err?
    ensures AllTextsInRange(workbook, sheetName, rangeStr).Err? ==>
      AllTextsInRange(workbook, sheetName, rangeStr) == AllValuesInRange(workbook, sheetName, rangeStr, {})
    ensures AllTextsInRange(workbook, sheetName, rangeStr).Ok? ==> forall x ::
      x in AllTextsInRange(workbook, sheetName, rangeStr).value <==> x in AllValuesInRange(workbook, sheetName, rangeStr, {}).value
  {
    if sheetName in workbook && ParseRange(rangeStr).Ok? {
      var sheet := workbook[sheetName];
      var range := ParseRange(rangeStr).value;
      if RangeBounds(sheet, range).Some? {
        var ps := RectData(sheet, RangeBounds(sheet, range).value);
        TextsAtCollected(sheet, ps);
      }
    }
  }

  /** The texts of some cells are the values gathered from them, with repeats. */
  lemma TextsAtCollected(sheet: Sheet, ps: seq<Pos>)
    ensures forall x :: x in TextsAt(sheet, ps) <==> x in Collected(sheet, ps, {})
  {
    CollectedExactly(sheet, ps, {});
    var ts := TextsAt(sheet, ps);
    forall x ensures x in ts <==> x in Collected(sheet, ps, {}) {
      if x in ts {
        var k :| 0 <= k < |ts| && ts[k] == x;
        assert ps[k] in ps;
      }
      if x in Collected(sheet, ps, {}) {
        var p :| p in ps && CellText(sheet, p) == x;
        var k :| 0 <= k < |ps| && ps[k] == p;
        assert ts[k] == x;
      }
    }
  }

  const EveryText: Reader := (wb: Workbook, cfg: FileConfig) => AllTextsInRange(wb, cfg.sheetName, cfg.rangeStr)

  /** checkCrossCompare as intended: each file's sum runs over every cell of its range,
      so equal values in several cells are each added. */
  function CrossCompare(fileNames: seq<string>, workbooks: seq<Workbook>, configs: seq<FileConfig>)
    : Result<seq<Mismatch>>
    requires |fileNames| == |workbooks|
  {
    var lists :- ReadPair(fileNames, workbooks, configs, EveryText);
    Ok(SumMismatch(DecimalSum(lists.0), DecimalSum(lists.1)))
  }

  /** Reading every cell fails exactly when and as the distinct reading fails, and reads
      the same values. */
  lemma ReadPairsAgree(fileNames: seq<string>, workbooks: seq<Workbook>, configs: seq<FileConfig>)
    requires |fileNames| == |workbooks|
    ensures var every := ReadPair(fileNames, workbooks, configs, EveryText);
            var distinct := ReadPair(fileNames, workbooks, configs, DistinctValues);
            && (every.Err? <==> distinct.Err?)
            && (every.Err? ==> every.failure == distinct.failure)
            && (every.Ok? ==>
                  && (forall x :: x in every.value.0 <==> x in distinct.value.0)
                  && (forall x :: x in every.value.1 <==> x in distinct.value.1))
  {
    var files := FileWorkbooks(fileNames, workbooks);
    if |configs| == 2 {
      if configs[0].fileName in files {
        var cfg := configs[0];
        AllTextsAgree(files[cfg.fileName], cfg.sheetName, cfg.rangeStr);
      }
      if configs[1].fileName in files {
        var cfg := configs[1];
        AllTextsAgree(files[cfg.fileName], cfg.sheetName, cfg.rangeStr);
      }
    }
  }

  /** The intended check throws exactly where the written one does. */
  lemma CrossCompareFailsAlike(fileNames: seq<string>, workbooks: seq<Workbook>, configs: seq<FileConfig>)
    requires |fileNames| == |workbooks|
    ensures CrossCompare(fileNames, workbooks, configs).Err? <==> CrossCompareAsWritten(fileNames, workbooks, configs).Err?
    ensures CrossCompare(fileNames, workbooks, configs).Err? ==>
      CrossCompare(fileNames, workbooks, configs) == CrossCompareAsWritten(fileNames, workbooks, configs)
  {
    ReadPairsAgree(fileNames, workbooks, configs);
  }

  // The written check against the intended one, on two files whose ranges both add up
  // to 30: the first holds 15 in A1 and in A2, the second holds 30 in A1.

  const Fifteens := Sheet(0, 1, map[0 := Row(1, map[0 := StringCell("15")]), 1 := Row(1, map[0 := StringCell("15")])])
  const Thirty := Sheet(0, 0, map[0 := Row(1, map[0 := StringCell("30")])])
  const ExampleNames := ["a.xlsx", "b.xlsx"]
  const ExampleBooks: seq<Workbook> := [map["S" := Fifteens], map["S" := Thirty]]
  const ExampleConfigs := [FileConfig("a.xlsx", "S", TwoRows), FileConfig("b.xlsx", "S", OneRow)]

  /** A path without a '/' is its own base name. */
  lemma {:induction false} BaseNameOfPlain(path: string)
    requires forall k | 0 <= k < |path| :: path[k] != '/'
    ensures BaseName(path) == path
  {
    if path != [] {
      var front := path[..|path| - 1];
      assert forall k | 0 <= k < |front| :: front[k] == path[k];
      BaseNameOfPlain(front);
      assert path[|path| - 1] != '/';
      assert BaseName(path) == BaseName(front) + [path[|path| - 1]];
      assert path == front + [path[|path| - 1]];
    }
  }

  /** Two files with different base names. */
  lemma {:induction false} LastByKeyTwo<W>(n1: string, n2: string, w1: W, w2: W, key: string -> string)
    ensures LastByKey([n1, n2], [w1, w2], key) == LastByKey([], [], key)[key(n1) := w1][key(n2) := w2]
  {
    assert [n1, n2][..1] == [n1] && [n1][..0] == [];
    assert [w1, w2][..1] == [w1] && [w1][..0] == [];
  }

  lemma ExampleFiles()
    ensures FileWorkbooks(ExampleNames, ExampleBooks) == map["a.xlsx" := ExampleBooks[0], "b.xlsx" := ExampleBooks[1]]
  {
    BaseNameOfPlain(ExampleNames[0]);
    BaseNameOfPlain(ExampleNames[1]);
    LastByKeyTwo(ExampleNames[0], ExampleNames[1], ExampleBooks[0], ExampleBooks[1], BaseName);
  }

  /** The two ranges, "A1:A2" and "A1:A1". */
  const TwoRows := CellName(0, 0) + ":" + CellName(0, 1)
  const OneRow := CellName(0, 0) + ":" + CellName(0, 0)

  lemma ExampleRanges()
    ensures ParseRange(TwoRows) == Ok(Explicit(0, 0, 1, 0))
    ensures ParseRange(OneRow) == Ok(Explicit(0, 0, 0, 0))
  {
    ParseRangeOfNames(0, 0, 0, 1);
    ParseRangeOfNames(0, 0, 0, 0);
  }

  /** The text of a cell holding the given digits. */
  lemma DigitCell(sheet: Sheet, r: nat, t: string)
    requires r in sheet.rows && 0 in sheet.rows[r].cells && sheet.rows[r].cells[0] == StringCell(t)
    requires |t| == 2 && IsDigit(t[0]) && IsDigit(t[1])
    ensures HasData(sheet, r, 0) && CellText(sheet, Pos(r, 0)) == t
  {
    TrimOfTrimmed(t);
    assert !IsBlank(t) by { BlankIffTrimEmpty(t); }
  }

  /** Digits alone are decimal text with their value. */
  lemma DigitsAreDecimal(t: string)
    requires |t| >= 1 && AllDigits(t)
    ensures IsDecimal(t) && DecimalValue(t) == ParseDigits(t) as real
  {
    NoPointInDigits(t);
    assert t[0] != '-' by { assert IsDigit(t[0]); }
    assert IsUnsignedDecimal(t);
  }

  /** Two digits contribute their value. */
  lemma TwoDigits(t: string)
    requires |t| == 2 && IsDigit(t[0]) && IsDigit(t[1])
    ensures Contribution(t) == (10 * DigitValue(t[0]) + DigitValue(t[1])) as real
  {
    TrimOfTrimmed(t);
    DigitsAreDecimal(t);
    assert ParseDigits(t[..1]) == DigitValue(t[0]) by {
      assert t[..1] == [t[0]] && [t[0]][..0] == [];
    }
  }

  /** A list of one two-digit value sums to that value. */
  lemma OneValueSum(t: string)
    requires |t| == 2 && IsDigit(t[0]) && IsDigit(t[1])
    ensures DecimalSum([t]) == (10 * DigitValue(t[0]) + DigitValue(t[1])) as real
  {
    TwoDigits(t);
    assert [t][..0] == [];
  }

  lemma ExampleSums()
    ensures DecimalSum(["15"]) == 15.0 && DecimalSum(["15", "15"]) == 30.0 && DecimalSum(["30"]) == 30.0
  {
    OneValueSum("15");
    OneValueSum("30");
    TwoDigits("15");
    assert ["15", "15"][..1] == ["15"];
  }

  /** The written check reports the sums 15 and 30 as different, because the second 15
      is dropped; the intended check finds both sums are 30. */
  lemma CrossCompareCountsRepeats()
    ensures CrossCompareAsWritten(ExampleNames, ExampleBooks, ExampleConfigs) == Ok([Unequal(15.0, 30.0)])
    ensures CrossCompare(ExampleNames, ExampleBooks, ExampleConfigs) == Ok([])
  {
    ExampleFiles();
    ExampleReads();
    ExampleSums();
  }

  /** What each reading gives for the two configurations. */
  lemma ExampleReads()
    ensures var files := FileWorkbooks(ExampleNames, ExampleBooks);
            && ConfigRead(files, ExampleConfigs[0], DistinctValues) == Ok(["15"])
            && ConfigRead(files, ExampleConfigs[1], DistinctValues) == Ok(["30"])
            && ConfigRead(files, ExampleConfigs[0], EveryText) == Ok(["15", "15"])
            && ConfigRead(files, ExampleConfigs[1], EveryText) == Ok(["30"])
  {
    ExampleFiles();
    FifteensRead();
    ThirtyRead();
  }

  /** Gathering one cell lists its text. */
  lemma CollectedOne(sheet: Sheet, p: Pos)
    ensures Collected(sheet, [p], {}) == [CellText(sheet, p)]
  {
    var f := TextOf(sheet);
    assert [p][..0] == [];
    assert Gather([], f, [], {}) == [];
    assert f(p) == CellText(sheet, p);
    assert Gather([], f, [p], {}) == [f(p)];
  }

  /** Gathering two cells with the same text lists it once. */
  lemma CollectedTwoSame(sheet: Sheet, p: Pos, q: Pos)
    requires CellText(sheet, p) == CellText(sheet, q)
    ensures Collected(sheet, [p, q], {}) == [CellText(sheet, p)]
  {
    CollectedOne(sheet, p);
    assert [p, q][..1] == [p];
    assert TextOf(sheet)(q) == CellText(sheet, q);
  }

  /** A range of one column holding the same text in its two rows. */
  lemma RepeatedColumn(sheet: Sheet, t: string)
    requires HasData(sheet, 0, 0) && HasData(sheet, 1, 0)
    requires CellText(sheet, Pos(0, 0)) == t && CellText(sheet, Pos(1, 0)) == t
    ensures RectData(sheet, Bounds(0, 1, 0, 0)) == [Pos(0, 0), Pos(1, 0)]
    ensures Collected(sheet, [Pos(0, 0), Pos(1, 0)], {}) == [t]
    ensures TextsAt(sheet, [Pos(0, 0), Pos(1, 0)]) == [t, t]
  {
    TwoRowsData(sheet);
    CollectedTwoSame(sheet, Pos(0, 0), Pos(1, 0));
  }

  lemma TwoRowsData(sheet: Sheet)
    requires HasData(sheet, 0, 0) && HasData(sheet, 1, 0)
    ensures RectData(sheet, Bounds(0, 1, 0, 0)) == [Pos(0, 0), Pos(1, 0)]
  {
    assert RowData(sheet, 0, 0, 0) == [Pos(0, 0)];
    assert RowData(sheet, 1, 0, 0) == [Pos(1, 0)];
    assert RectData(sheet, Bounds(0, 0, 0, 0)) == [Pos(0, 0)];
  }

  /** A range of one cell. */
  lemma SingleCell(sheet: Sheet, t: string)
    requires HasData(sheet, 0, 0) && CellText(sheet, Pos(0, 0)) == t
    ensures RectData(sheet, Bounds(0, 0, 0, 0)) == [Pos(0, 0)]
    ensures Collected(sheet, [Pos(0, 0)], {}) == [t]
    ensures TextsAt(sheet, [Pos(0, 0)]) == [t]
  {
    assert RowData(sheet, 0, 0, 0) == [Pos(0, 0)];
    assert RectData(sheet, Bounds(0, -1, 0, 0)) == [];
    CollectedOne(sheet, Pos(0, 0));
  }

  /** Both readings of an explicit range of a sheet the workbook holds. */
  lemma ExplicitRead(workbook: Workbook, sheetName: string, rangeStr: string, b: Bounds)
    requires sheetName in workbook && ParseRange(rangeStr) == Ok(Explicit(b.lo, b.c0, b.hi, b.c1))
    ensures var sheet := workbook[sheetName];
            && AllValuesInRange(workbook, sheetName, rangeStr, {}) == Ok(Collected(sheet, RectData(sheet, b), {}))
            && AllTextsInRange(workbook, sheetName, rangeStr) == Ok(TextsAt(sheet, RectData(sheet, b)))
  {
  }

  lemma FifteensRead()
    ensures AllValuesInRange(map["S" := Fifteens], "S", TwoRows, {}) == Ok(["15"])
    ensures AllTextsInRange(map["S" := Fifteens], "S", TwoRows) == Ok(["15", "15"])
  {
    DigitCell(Fifteens, 0, "15");
    DigitCell(Fifteens, 1, "15");
    RepeatedColumn(Fifteens, "15");
    ExampleRanges();
    ExplicitRead(map["S" := Fifteens], "S", TwoRows, Bounds(0, 1, 0, 0));
  }

  lemma ThirtyRead()
    ensures AllValuesInRange(map["S" := Thirty], "S", OneRow, {}) == Ok(["30"])
    ensures AllTextsInRange(map["S" := Thirty], "S", OneRow) == Ok(["30"])
  {
    DigitCell(Thirty, 0, "30");
    SingleCell(Thirty, "30");
    ExampleRanges();
    ExplicitRead(map["S" := Thirty], "S", OneRow, Bounds(0, 0, 0, 0));
  }

  /** The contributions of some cells, one per cell, added up in order. */
  function CellsSum(sheet: Sheet, ps: seq<Pos>): real
  {
    if ps == [] then 0.0 else CellsSum(sheet, ps[..|ps| - 1]) + Contribution(CellText(sheet, ps[|ps| - 1]))
  }

  /** Adding up the texts of some cells is adding up each cell's contribution. */
  lemma {:induction false} TextsSumIsCellsSum(sheet: Sheet, ps: seq<Pos>)
    ensures DecimalSum(TextsAt(sheet, ps)) == CellsSum(sheet, ps)
    decreases |ps|
  {
    if ps != [] {
      var init, last := ps[..|ps| - 1], ps[|ps| - 1];
      TextsSumIsCellsSum(sheet, init);
      var ts := TextsAt(sheet, ps);
      assert ts == TextsAt(sheet, init) + [CellText(sheet, last)];
      assert ts[..|ts| - 1] == TextsAt(sheet, init) && ts[|ts| - 1] == CellText(sheet, last);
    }
  }

  /** The intended sum of a range counts every cell holding data once, repeated values
      included: it is the sum of the contributions of the rectangle's data cells. */
  lemma RangeSumIsCellsSum(workbook: Workbook, sheetName: string, rangeStr: string, b: Bounds)
    requires sheetName in workbook && ParseRange(rangeStr).Ok?
    requires RangeBounds(workbook[sheetName], ParseRange(rangeStr).value) == Some(b)
    ensures var sheet := workbook[sheetName];
            && AllTextsInRange(workbook, sheetName, rangeStr) == Ok(TextsAt(sheet, RectData(sheet, b)))
            && DecimalSum(AllTextsInRange(workbook, sheetName, rangeStr).value) == CellsSum(sheet, RectData(sheet, b))
  {
    TextsSumIsCellsSum(workbook[sheetName], RectData(workbook[sheetName], b));
  }

  /** Where neither range repeats a value, the written and the intended comparisons give
      the same result. */
  lemma CompareAgreesWithoutRepeats(fileNames: seq<string>, workbooks: seq<Workbook>, configs: seq<FileConfig>)
    requires |fileNames| == |workbooks|
    requires var every := ReadPair(fileNames, workbooks, configs, EveryText);
             every.Ok? ==> NoDuplicates(every.value.0) && NoDuplicates(every.value.1)
    ensures CrossCompare(fileNames, workbooks, configs) == CrossCompareAsWritten(fileNames, workbooks, configs)
  {
    ReadPairsAgree(fileNames, workbooks, configs);
    var every := ReadPair(fileNames, workbooks, configs, EveryText);
    var distinct := ReadPair(fileNames, workbooks, configs, DistinctValues);
    if every.Ok? {
      DistinctSumIsSetSum(every.value.0, distinct.value.0);
      DistinctSumIsSetSum(every.value.1, distinct.value.1);
    }
  }

  method SumValues(values: seq<string>) returns (sum: real)
    ensures sum == DecimalSum(values)
  {
    sum := 0.0;
    for i := 0 to |values|
      invariant sum == DecimalSum(values[..i])
    {
      assert values[..i + 1][..i] == values[..i];
      var t := Trim(values[i]);
      if IsDecimal(t) {
        sum := sum + DecimalValue(t);
      }
    }
    assert values[..|values|] == values;
  }

  /** checkCrossCompare: the two HashSets of distinct values, then their sums. The sum
      over the list getAllValuesInRange returns is the sum over its set in any order
      (DistinctSumIsSetSum). */
  method CheckCrossCompare(fileNames: seq<string>, workbooks: seq<Workbook>, configs: seq<FileConfig>)
    returns (r: Result<seq<Mismatch>>)
    requires |fileNames| == |workbooks|
    ensures r == CrossCompareAsWritten(fileNames, workbooks, configs)
  {
    if |configs| != 2 {
      return Err(IllegalArgument(NeedTwoConfigs));
    }
    var files := FileWorkbookMap(fileNames, workbooks);
    var values1 :- ReadConfig(files, configs[0]);
    var values2 :- ReadConfig(files, configs[1]);
    var sum1 := SumValues(values1);
    var sum2 := SumValues(values2);
    return Ok(SumMismatch(sum1, sum2));
  }

  // ---------------------------------------------------------------- processMutiFileExcelToWssResult

  /** An entry of notMatchedValues: a value both files hold, or the two sums that differ
      (the Java entry is the text `sum1 + " ผลรวมไม่เท่ากับ " + sum2`). */
  datatype Mismatch = Shared(value: string) | Unequal(sum1: real, sum2: real)

  /** The call's outcome: the empty object, or createWssResult's failure. */
  datatype MultiFileResult =
    | NoFinding
    | Finding(errorCode: string, errorMessage: string, notMatchedValues: seq<Mismatch>)

  function SharedValues(xs: seq<string>): (ms: seq<Mismatch>)
    ensures |ms| == |xs| && forall k | 0 <= k < |xs| :: ms[k] == Shared(xs[k])
  {
    if xs == [] then [] else SharedValues(xs[..|xs| - 1]) + [Shared(xs[|xs| - 1])]
  }

  /** One request of the validate loop. A CROSSFILECOMPARE whose condition is not EQUAL
      is not evaluated; a check that finds nothing lets the loop go on. */
  function CrossCheck(fileNames: seq<string>, workbooks: seq<Workbook>, v: CrossValidate, reading: Reading)
    : (r: Result<MultiFileResult>)
    requires |fileNames| == |workbooks|
    ensures v.Compared? && v.detail.condition != Some(EqualWord) ==> r == Ok(NoFinding)
    ensures r.Ok? && r.value.Finding? ==> r.value.notMatchedValues != []
    ensures r.Ok? && r.value.Finding? ==>
      (r.value.errorCode, r.value.errorMessage) == (if v.Duplicated? then (SharedCode, SharedMessage) else (UnequalCode, UnequalMessage))
  {
    match v
    case Duplicated(d) =>
      var shared :- EqualCondition(fileNames, workbooks, d.sheetConfigs);
      Ok(if shared == [] then NoFinding else Finding(SharedCode, SharedMessage, SharedValues(shared)))
    case Compared(d) =>
      if d.condition != Some(EqualWord) then Ok(NoFinding)
      else
        var unequal :- if reading.AsWritten? then CrossCompareAsWritten(fileNames, workbooks, d.sheetConfigs)
                       else CrossCompare(fileNames, workbooks, d.sheetConfigs);
        Ok(if unequal == [] then NoFinding else Finding(UnequalCode, UnequalMessage, unequal))
  }

  /** A loop that returns the first result that is not `NoFinding`, an exception
      included, and NoFinding when every check passes. */
  function FirstOf<V>(order: seq<V>, check: V -> Result<MultiFileResult>): Result<MultiFileResult>
  {
    if order == [] then Ok(NoFinding)
    else
      var f :- check(order[0]);
      if f.Finding? then Ok(f) else FirstOf(order[1..], check)
  }

  /** Such a loop reports nothing exactly when no check finds anything, and otherwise
      reports what the first check that does not pass reports. */
  lemma {:induction false} FirstOfExactly<V>(order: seq<V>, check: V -> Result<MultiFileResult>)
    ensures FirstOf(order, check) == Ok(NoFinding) <==> forall k | 0 <= k < |order| :: check(order[k]) == Ok(NoFinding)
    ensures FirstOf(order, check) != Ok(NoFinding) ==>
      exists k | 0 <= k < |order| :: FirstOf(order, check) == check(order[k])
        && forall j | 0 <= j < k :: check(order[j]) == Ok(NoFinding)
  {
    if order != [] {
      var rest := order[1..];
      FirstOfExactly(rest, check);
      assert forall k | 0 <= k < |rest| :: rest[k] == order[k + 1];
      if check(order[0]) == Ok(NoFinding) && FirstOf(rest, check) != Ok(NoFinding) {
        var k :| 0 <= k < |rest| && FirstOf(rest, check) == check(rest[k])
          && forall j | 0 <= j < k :: check(rest[j]) == Ok(NoFinding);
        assert FirstOf(order, check) == check(order[k + 1]);
      }
    }
  }

  /** The validate loop over the requests in iteration order. */
  function FirstFinding(fileNames: seq<string>, workbooks: seq<Workbook>, order: seq<CrossValidate>, reading: Reading)
    : Result<MultiFileResult>
    requires |fileNames| == |workbooks|
  {
    FirstOf(order, v => CrossCheck(fileNames, workbooks, v, reading))
  }

  /** The loop, its body split out. */
  method RunChecks(fileNames: seq<string>, workbooks: seq<Workbook>, order: seq<CrossValidate>) returns (r: Result<MultiFileResult>)
    requires |fileNames| == |workbooks|
    ensures r == FirstFinding(fileNames, workbooks, order, AsWritten)
  {
    var check := v => CrossCheck(fileNames, workbooks, v, AsWritten);
    for i := 0 to |order|
      invariant FirstOf(order, check) == FirstOf(order[i..], check)
    {
      var f :- CheckRequest(fileNames, workbooks, order[i]);
      if f.Finding? {
        return Ok(f);
      }
      assert order[i..][1..] == order[i + 1..];
    }
    return Ok(NoFinding);
  }

  /** The HashSet of requests is iterated in `validateOrder`. */
  predicate MultiFileOrder(params: seq<string>, validateOrder: seq<CrossValidate>, reading: Reading)
  {
    CrossRequests(params, reading).Ok? ==> Lists(validateOrder, CrossRequests(params, reading).value)
  }

  /** processMutiFileExcelToWssResult on the two files' workbooks: at least one
      parameter and exactly two Excel files, then the requests, then the validate loop. */
  function MultiFile(fileNames: seq<string>, workbooks: seq<Workbook>, params: seq<string>,
                     validateOrder: seq<CrossValidate>, reading: Reading): (r: Result<MultiFileResult>)
    requires |fileNames| == |workbooks|
    requires MultiFileOrder(params, validateOrder, reading)
    ensures |params| == 0 ==> r == Err(IllegalArgument(NoParams))
    ensures |params| > 0 && |fileNames| != 2 ==> r == Err(IllegalArgument(NeedTwoFiles))
    ensures |params| > 0 && |fileNames| == 2 && !(IsExcelFile(fileNames[0]) && IsExcelFile(fileNames[1])) ==>
      r == Err(IllegalArgument(NotExcel))
  {
    if |params| < 1 then Err(IllegalArgument(NoParams))
    else if |fileNames| != 2 then Err(IllegalArgument(NeedTwoFiles))
    else if !IsExcelFile(fileNames[0]) || !IsExcelFile(fileNames[1]) then Err(IllegalArgument(NotExcel))
    else
      var requests :- CrossRequests(params, reading);
      FirstFinding(fileNames, workbooks, validateOrder, reading)
  }

  /** A call that gets past its checks and reports the empty object had no request
      finding anything; a call that reports a finding reports one request's finding. */
  lemma MultiFileOutcome(fileNames: seq<string>, workbooks: seq<Workbook>, params: seq<string>,
                          validateOrder: seq<CrossValidate>, reading: Reading)
    requires |fileNames| == |workbooks| && MultiFileOrder(params, validateOrder, reading)
    requires MultiFile(fileNames, workbooks, params, validateOrder, reading).Ok?
    ensures CrossRequests(params, reading).Ok?
    ensures MultiFile(fileNames, workbooks, params, validateOrder, reading).value == NoFinding <==>
      forall v | v in CrossRequests(params, reading).value :: CrossCheck(fileNames, workbooks, v, reading) == Ok(NoFinding)
    ensures MultiFile(fileNames, workbooks, params, validateOrder, reading).value.Finding? ==>
      exists v | v in CrossRequests(params, reading).value ::
        CrossCheck(fileNames, workbooks, v, reading) == MultiFile(fileNames, workbooks, params, validateOrder, reading)
  {
    var check := v => CrossCheck(fileNames, workbooks, v, reading);
    FirstOfExactly(validateOrder, check);
    var requests := CrossRequests(params, reading).value;
    if forall k | 0 <= k < |validateOrder| :: check(validateOrder[k]) == Ok(NoFinding) {
      forall v | v in requests ensures check(v) == Ok(NoFinding) {
        var k :| 0 <= k < |validateOrder| && validateOrder[k] == v;
      }
    } else {
      var k :| 0 <= k < |validateOrder| && MultiFile(fileNames, workbooks, params, validateOrder, reading) == check(validateOrder[k]);
      assert validateOrder[k] in requests;
    }
  }

  /** As written, a CROSSFILEDUPLICATED request throws when it is checked, unless one of
      the files is itself named like the directive: its first file name still begins
      with `CROSSFILEDUPLICATED(`, so checkCrossFileEqualCondition either does not get
      two configurations or finds no workbook of that name. */
  lemma DuplicatedAsWrittenThrows(fileNames: seq<string>, workbooks: seq<Workbook>, param: string)
    requires |fileNames| == |workbooks|
    requires forall i | 0 <= i < |fileNames| :: !StartsWith(BaseName(fileNames[i]), DuplicatedPrefix)
    requires StartsWith(param, DuplicatedPrefix) && CrossRequest(param, AsWritten).Ok?
    ensures CrossCheck(fileNames, workbooks, CrossRequest(param, AsWritten).value.value, AsWritten).Err?
  {
    DuplicatedAsWrittenKeepsKeyword(param);
    var configs := CrossFileCompareAsWritten(param, DuplicatedKind).value.sheetConfigs;
    LastByKeyExactly(fileNames, workbooks, BaseName, configs[0].fileName);
  }

  /** One request, as the loop body handles it. */
  method CheckRequest(fileNames: seq<string>, workbooks: seq<Workbook>, v: CrossValidate) returns (r: Result<MultiFileResult>)
    requires |fileNames| == |workbooks|
    ensures r == CrossCheck(fileNames, workbooks, v, AsWritten)
  {
    match v
    case Duplicated(d) =>
      var shared :- CheckCrossFileEqualCondition(fileNames, workbooks, d.sheetConfigs);
      if shared != [] {
        return Ok(Finding(SharedCode, SharedMessage, SharedValues(shared)));
      }
      return Ok(NoFinding);
    case Compared(d) =>
      if d.condition == Some(EqualWord) {
        var unequal :- CheckCrossCompare(fileNames, workbooks, d.sheetConfigs);
        if unequal != [] {
          return Ok(Finding(UnequalCode, UnequalMessage, unequal));
        }
      }
      return Ok(NoFinding);
  }

  /** processMutiFileExcelToWssResult as the program runs it. */
  method ProcessMultiFile(fileNames: seq<string>, workbooks: seq<Workbook>, params: seq<string>, validateOrder: seq<CrossValidate>)
    returns (r: Result<MultiFileResult>)
    requires |fileNames| == |workbooks|
    requires MultiFileOrder(params, validateOrder, AsWritten)
    ensures r == MultiFile(fileNames, workbooks, params, validateOrder, AsWritten)
  {
    if |params| < 1 {
      return Err(IllegalArgument(NoParams));
    }
    if |fileNames| != 2 {
      return Err(IllegalArgument(NeedTwoFiles));
    }
    if !IsExcelFile(fileNames[0]) || !IsExcelFile(fileNames[1]) {
      return Err(IllegalArgument(NotExcel));
    }
    var requests :- CollectCrossRequests(params);
    r := RunChecks(fileNames, workbooks, validateOrder);
  }
}
