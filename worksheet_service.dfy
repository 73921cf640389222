/** processExcelToWssResult after the directives are bound: the variables are read,
    every validation request is run, and the findings become the wssResult envelope. */
module WorkSheetService {
  import opened Outcomes
  import opened Strings
  import opened Cells
  import opened ExcelReader
  import opened ExtractParams
  import opened RangeScans
  import opened Variables
  import opened DirectiveBinding

  const NoParams := "ต้องระบุพารามิเตอร์อย่างน้อย 1 ค่า: sheetName"
  /** The text by which a caught IllegalArgumentException is told to be a missing sheet. */
  const SheetWord := "ไม่พบชีท"

  // ---------------------------------------------------------------- findings

  /** What the validation loop collects: the single-sheet duplicates merged with
      putAll, the cross-sheet duplicates, and the sheet-not-found messages. */
  datatype Checks = Checks(duplicates: map<Value, seq<string>>, cross: seq<string>, notFound: seq<string>)

  const NoChecks := Checks(map[], [], [])

  /** Adding one request's findings to those collected so far. */
  function Merge(c: Checks, e: Checks): Checks
  {
    Checks(c.duplicates + e.duplicates, c.cross + e.cross, c.notFound + e.notFound)
  }

  /** The catch around each read: an IllegalArgumentException whose message mentions a
      missing sheet is collected; any other exception is rethrown. */
  predicate MissingSheet(e: Failure)
  {
    e.IllegalArgument? && Contains(e.message, SheetWord)
  }

  lemma StartsWithContains(s: string, p: string)
    requires StartsWith(s, p)
    ensures Contains(s, p)
  {
    assert s[0..|p|] == p;
  }

  /** The reader's own sheet-not-found message is caught as such. */
  lemma SheetNotFoundIsMissing(sheetName: string)
    ensures MissingSheet(IllegalArgument(SheetNotFound(sheetName)))
  {
    var m := SheetNotFound(sheetName);
    assert m[..|SheetWord|] == SheetWord;
    StartsWithContains(m, SheetWord);
  }

  /** A request's except values; a missing set excludes nothing. */
  function ExceptSet(except: Option<set<string>>): set<string>
  {
    if except.Some? then except.value else {}
  }

  // ---------------------------------------------------------------- CHKDUPLICATE

  /** One CHKDUPLICATE request: its duplicates, or the missing sheet's message. */
  function DuplicateEffect(workbook: Workbook, sheetName: string, rangeStr: string, except: Option<set<string>>)
    : Result<Checks>
  {
    match DuplicateValuesIn(workbook, sheetName, rangeStr, ExceptSet(except))
    case Ok(dups) => Ok(Checks(dups, [], []))
    case Err(e) => if MissingSheet(e) then Ok(Checks(map[], [], [SheetNotFound(sheetName)])) else Err(e)
  }

  /** A request on a sheet the workbook lacks reports that sheet and nothing else. */
  lemma MissingSheetReported(workbook: Workbook, sheetName: string, rangeStr: string, except: Option<set<string>>)
    requires sheetName !in workbook
    ensures DuplicateEffect(workbook, sheetName, rangeStr, except) == Ok(Checks(map[], [], [SheetNotFound(sheetName)]))
  {
    SheetNotFoundIsMissing(sheetName);
  }

  // ---------------------------------------------------------------- CHKSHEETDUPLICATE

  /** The LinkedHashMap from sheet name to its values, with its insertion order, and
      the missing sheets' messages. */
  datatype SheetReads = SheetReads(names: seq<string>, values: map<string, seq<string>>, notFound: seq<string>)

  /** LinkedHashMap.put: a new key goes last, a known key keeps its place. */
  function Put(r: SheetReads, name: string, vs: seq<string>): SheetReads
  {
    if name in r.values then r.(values := r.values[name := vs])
    else r.(names := r.names + [name], values := r.values[name := vs])
  }

  /** The insertion order lists every key once. */
  predicate Linked(r: SheetReads)
  {
    && (forall k | 0 <= k < |r.names| :: r.names[k] in r.values)
    && (forall n | n in r.values :: n in r.names)
    && (forall i, j | 0 <= i < j < |r.names| :: r.names[i] != r.names[j])
  }

  /** The loop over a request's sheet configs. */
  function ReadSheets(workbook: Workbook, configs: seq<SheetConfig>): Result<SheetReads>
  {
    if configs == [] then Ok(SheetReads([], map[], []))
    else
      var r :- ReadSheets(workbook, configs[..|configs| - 1]);
      var config := configs[|configs| - 1];
      match AllValuesInRange(workbook, config.sheetName, config.rangeStr, ExceptSet(config.exceptValues))
      case Ok(vs) => Ok(Put(r, config.sheetName, vs))
      case Err(e) =>
        if MissingSheet(e) then Ok(r.(notFound := r.notFound + [SheetNotFound(config.sheetName)])) else Err(e)
  }

  /** The map read from the configs keeps its insertion order exact, and holds the
      sheets that were read: a sheet that is missing is reported, never stored. */
  lemma {:induction false} ReadSheetsLinked(workbook: Workbook, configs: seq<SheetConfig>)
    requires ReadSheets(workbook, configs).Ok?
    ensures Linked(ReadSheets(workbook, configs).value)
    ensures forall n | n in ReadSheets(workbook, configs).value.values :: n in workbook
    decreases |configs|
  {
    if configs != [] {
      var front := configs[..|configs| - 1];
      ReadSheetsLinked(workbook, front);
      var r := ReadSheets(workbook, front).value;
      var config := configs[|configs| - 1];
      var read := AllValuesInRange(workbook, config.sheetName, config.rangeStr, ExceptSet(config.exceptValues));
      if read.Ok? && config.sheetName !in r.values {
        var s := Put(r, config.sheetName, read.value);
        assert s.names == r.names + [config.sheetName];
        assert forall k | 0 <= k < |r.names| :: s.names[k] == r.names[k];
      }
    }
  }

  /** The values of list2 that list1 holds, in list2's order. */
  function Common(list1: seq<string>, list2: seq<string>): (r: seq<string>)
  {
    if list2 == [] then []
    else
      var rest := Common(list1, list2[..|list2| - 1]);
      var v := list2[|list2| - 1];
      if v in list1 then rest + [v] else rest
  }

  /** Exactly the values in both lists, never more than the second holds. */
  lemma {:induction false} CommonExactly(list1: seq<string>, list2: seq<string>)
    ensures forall x :: x in Common(list1, list2) <==> x in list1 && x in list2
    ensures |Common(list1, list2)| <= |list2|
    decreases |list2|
  {
    if list2 != [] {
      var front := list2[..|list2| - 1];
      CommonExactly(list1, front);
      assert list2 == front + [list2[|list2| - 1]];
    }
  }

  /** The cross-sheet duplicates: with two or more sheets read, the second sheet's
      values that the first sheet holds; with fewer, none. */
  function CrossSheet(r: SheetReads): seq<string>
    requires Linked(r)
  {
    if |r.names| >= 2 then Common(r.values[r.names[0]], r.values[r.names[1]]) else []
  }

  /** One CHKSHEETDUPLICATE request. */
  function SheetDuplicateEffect(workbook: Workbook, configs: seq<SheetConfig>): Result<Checks>
  {
    var r :- ReadSheets(workbook, configs);
    ReadSheetsLinked(workbook, configs);
    Ok(Checks(map[], CrossSheet(r), r.notFound))
  }

  /** A request under which fewer than two distinct sheets were read reports no
      cross-sheet duplicate; otherwise it reports exactly the values that both the first
      and the second sheet read hold. */
  lemma SheetDuplicateFindings(workbook: Workbook, configs: seq<SheetConfig>)
    requires SheetDuplicateEffect(workbook, configs).Ok?
    ensures var r := ReadSheets(workbook, configs).value;
      var cross := SheetDuplicateEffect(workbook, configs).value.cross;
      && Linked(r)
      && (|r.names| < 2 ==> cross == [])
      && (|r.names| >= 2 ==> forall x :: x in cross <==> x in r.values[r.names[0]] && x in r.values[r.names[1]])
  {
    var r := ReadSheets(workbook, configs).value;
    ReadSheetsLinked(workbook, configs);
    if |r.names| >= 2 {
      CommonExactly(r.values[r.names[0]], r.values[r.names[1]]);
    }
  }

  // ---------------------------------------------------------------- the validation loop

  /** What one request adds, whatever was collected before it. */
  function Effect(workbook: Workbook, v: Validate): Result<Checks>
  {
    match v
    case CheckDuplicate(sheetName, rangeStr, except) => DuplicateEffect(workbook, sheetName, rangeStr, except)
    case CheckSheetDuplicate(configs) => SheetDuplicateEffect(workbook, configs)
  }

  function Effects(workbook: Workbook): Validate -> Result<Checks>
  {
    v => Effect(workbook, v)
  }

  /** The loop over the requests, in the HashSet's order; the first rethrown exception
      ends it. */
  function Merged(effect: Validate -> Result<Checks>, order: seq<Validate>): Result<Checks>
    decreases |order|
  {
    if order == [] then Ok(NoChecks)
    else
      var c :- Merged(effect, order[..|order| - 1]);
      var e :- effect(order[|order| - 1]);
      Ok(Merge(c, e))
  }

  function Checked(workbook: Workbook, order: seq<Validate>): Result<Checks>
  {
    Merged(Effects(workbook), order)
  }

  /** Some request of the order reports a finding that `has` picks out. */
  predicate Somewhere(effect: Validate -> Result<Checks>, order: seq<Validate>, has: Checks -> bool)
  {
    exists k | 0 <= k < |order| :: effect(order[k]).Ok? && has(effect(order[k]).value)
  }

  lemma SomewhereStep(effect: Validate -> Result<Checks>, order: seq<Validate>, has: Checks -> bool)
    requires order != []
    ensures Somewhere(effect, order, has) <==>
      Somewhere(effect, order[..|order| - 1], has)
      || (effect(order[|order| - 1]).Ok? && has(effect(order[|order| - 1]).value))
  {
    var front := order[..|order| - 1];
    if Somewhere(effect, order, has) {
      var k :| 0 <= k < |order| && effect(order[k]).Ok? && has(effect(order[k]).value);
      if k < |front| {
        assert front[k] == order[k];
      }
    }
    if Somewhere(effect, front, has) {
      var k :| 0 <= k < |front| && effect(front[k]).Ok? && has(effect(front[k]).value);
      assert order[k] == front[k];
    }
  }

  /** Somewhere depends on which requests there are, not on their order. */
  lemma SomewhereSameElements(effect: Validate -> Result<Checks>, o1: seq<Validate>, o2: seq<Validate>,
                              has: Checks -> bool)
    requires forall v :: v in o1 <==> v in o2
    ensures Somewhere(effect, o1, has) <==> Somewhere(effect, o2, has)
  {
    if Somewhere(effect, o1, has) {
      var k :| 0 <= k < |o1| && effect(o1[k]).Ok? && has(effect(o1[k]).value);
      assert o1[k] in o2;
      var j :| 0 <= j < |o2| && o2[j] == o1[k];
    }
    if Somewhere(effect, o2, has) {
      var k :| 0 <= k < |o2| && effect(o2[k]).Ok? && has(effect(o2[k]).value);
      assert o2[k] in o1;
      var j :| 0 <= j < |o1| && o1[j] == o2[k];
    }
  }

  /** The loop throws exactly when some request throws. */
  lemma {:induction false} MergedErr(effect: Validate -> Result<Checks>, order: seq<Validate>)
    ensures Merged(effect, order).Err? <==> exists k | 0 <= k < |order| :: effect(order[k]).Err?
    decreases |order|
  {
    if order != [] {
      var front := order[..|order| - 1];
      MergedErr(effect, front);
      assert forall k | 0 <= k < |front| :: front[k] == order[k];
    }
  }

  /** Every finding collected comes from some request, and every request's findings are
      collected: v is a duplicate, and x a cross-sheet duplicate or a missing-sheet
      message, exactly when some request reports it. */
  lemma {:induction false} MergedFindings(effect: Validate -> Result<Checks>, order: seq<Validate>, v: Value, x: string)
    requires Merged(effect, order).Ok?
    ensures var c := Merged(effect, order).value;
      && (v in c.duplicates <==> Somewhere(effect, order, (e: Checks) => v in e.duplicates))
      && (x in c.cross <==> Somewhere(effect, order, (e: Checks) => x in e.cross))
      && (x in c.notFound <==> Somewhere(effect, order, (e: Checks) => x in e.notFound))
    decreases |order|
  {
    if order != [] {
      MergedFindings(effect, order[..|order| - 1], v, x);
      SomewhereStep(effect, order, (e: Checks) => v in e.duplicates);
      SomewhereStep(effect, order, (e: Checks) => x in e.cross);
      SomewhereStep(effect, order, (e: Checks) => x in e.notFound);
    }
  }

  // ---------------------------------------------------------------- the envelope

  const Success := "success"
  const Fail := "fail"
  const SheetNotFoundCode := "SHEET_NOT_FOUND"
  const BothCode := "DUPLICATE_AND_CROSS_SHEET_DUPLICATE"
  const BothMessage := "พบค่าซ้ำในข้อมูลทั้งในชีทเดียวและระหว่างชีท"
  const DuplicateCode := "DUPLICATE"
  const DuplicateMessage := "พบค่าซ้ำในข้อมูล"
  const CrossCode := "CROSS_SHEET_DUPLICATE"
  const CrossMessage := "พบค่าซ้ำระหว่างชีท"

  /** The errorMessage object; the finding fields are present only when non-empty. */
  datatype ErrorInfo = ErrorInfo(errorCode: string, errorMessage: string,
                                 duplicateValues: Option<map<Value, seq<string>>>,
                                 crossSheetDuplicateValues: Option<seq<string>>)

  /** The wssResult object; an empty errorMessage object is None. */
  datatype WssResult = WssResult(data: map<string, Field>, status: string, errorMessage: Option<ErrorInfo>)

  /** The status and error-code selection. */
  function Report(data: map<string, Field>, c: Checks): WssResult
  {
    if c.notFound != [] then
      WssResult(data, Fail, Some(ErrorInfo(SheetNotFoundCode, Join(c.notFound, ", "), None, None)))
    else if c.duplicates == map[] && c.cross == [] then
      WssResult(data, Success, None)
    else
      var dups := if c.duplicates != map[] then Some(c.duplicates) else None;
      var cross := if c.cross != [] then Some(c.cross) else None;
      var info :=
        if c.duplicates != map[] && c.cross != [] then ErrorInfo(BothCode, BothMessage, dups, cross)
        else if c.duplicates != map[] then ErrorInfo(DuplicateCode, DuplicateMessage, dups, cross)
        else ErrorInfo(CrossCode, CrossMessage, dups, cross);
      WssResult(data, Fail, Some(info))
  }

  /** The data is always reported; status is success exactly when nothing was found,
      and an error object is present exactly on failure. A missing sheet overrides
      every duplicate finding; otherwise the code names which kinds were found and the
      findings of those kinds are attached. */
  lemma ReportTaxonomy(data: map<string, Field>, c: Checks)
    ensures var r := Report(data, c);
      && r.data == data
      && (r.status == Success <==> c.notFound == [] && c.duplicates == map[] && c.cross == [])
      && (r.status == Fail <==> r.errorMessage.Some?)
      && (r.status == Success || r.status == Fail)
      && (c.notFound != [] ==> r.errorMessage == Some(ErrorInfo(SheetNotFoundCode, Join(c.notFound, ", "), None, None)))
      && (c.notFound == [] && r.errorMessage.Some? ==>
            && (r.errorMessage.value.errorCode == BothCode <==> c.duplicates != map[] && c.cross != [])
            && (r.errorMessage.value.errorCode == DuplicateCode <==> c.duplicates != map[] && c.cross == [])
            && (r.errorMessage.value.errorCode == CrossCode <==> c.duplicates == map[] && c.cross != [])
            && (r.errorMessage.value.duplicateValues.Some? <==> c.duplicates != map[])
            && (r.errorMessage.value.duplicateValues.Some? ==> r.errorMessage.value.duplicateValues.value == c.duplicates)
            && (r.errorMessage.value.crossSheetDuplicateValues.Some? <==> c.cross != [])
            && (r.errorMessage.value.crossSheetDuplicateValues.Some? ==> r.errorMessage.value.crossSheetDuplicateValues.value == c.cross))
  {
  }

  /** Status and code depend only on which kinds of finding are present. */
  predicate SameKinds(c1: Checks, c2: Checks)
  {
    && (c1.notFound == [] <==> c2.notFound == [])
    && (c1.duplicates == map[] <==> c2.duplicates == map[])
    && (c1.cross == [] <==> c2.cross == [])
  }

  function Code(r: WssResult): string
  {
    if r.errorMessage.Some? then r.errorMessage.value.errorCode else ""
  }

  lemma ReportByKinds(d1: map<string, Field>, c1: Checks, d2: map<string, Field>, c2: Checks)
    requires SameKinds(c1, c2)
    ensures Report(d1, c1).status == Report(d2, c2).status
    ensures Code(Report(d1, c1)) == Code(Report(d2, c2))
  {
  }

  // ---------------------------------------------------------------- processExcelToWssResult

  /** `order` lists every element of `s` once: the HashSet's iteration. */
  predicate Lists<T(==)>(order: seq<T>, s: set<T>)
  {
    && (forall k | 0 <= k < |order| :: order[k] in s)
    && (forall v | v in s :: v in order)
    && (forall i, j | 0 <= i < j < |order| :: order[i] != order[j])
  }

  /** The orders in which the HashMap of variables and the HashSet of requests are
      iterated, for the directives the parameters bind. */
  predicate Iterations(params: seq<string>, keyOrder: seq<string>, validateOrder: seq<Validate>)
  {
    Bound(params).Ok? ==>
      Enumerates(keyOrder, Bound(params).value.variables) && Lists(validateOrder, Bound(params).value.validates)
  }

  /** processExcelToWssResult on the workbook the file holds. The parameter check and
      the file-name test come first; every exception but the caught ones propagates. */
  function ProcessExcel(workbook: Workbook, fileName: string, params: seq<string>,
                        keyOrder: seq<string>, validateOrder: seq<Validate>): (r: Result<WssResult>)
    requires Iterations(params, keyOrder, validateOrder)
    ensures |params| == 0 ==> r == Err(IllegalArgument(NoParams))
    ensures |params| > 0 && !IsExcelFile(fileName) ==> r == Err(IllegalArgument(NotExcel))
  {
    if |params| < 1 then Err(IllegalArgument(NoParams))
    else if !IsExcelFile(fileName) then Err(IllegalArgument(NotExcel))
    else
      var d :- Bound(params);
      var data :- ExcelVariables(workbook, fileName, d.sheetName, d.variables, keyOrder);
      var checks :- Checked(workbook, validateOrder);
      Ok(Report(data, checks))
  }

  /** Neither whether the call fails, nor its status or error code, depends on the
      order in which the HashMap and the HashSet are iterated. */
  lemma ProcessOrderFree(workbook: Workbook, fileName: string, params: seq<string>,
                         k1: seq<string>, v1: seq<Validate>, k2: seq<string>, v2: seq<Validate>)
    requires Iterations(params, k1, v1) && Iterations(params, k2, v2)
    ensures ProcessExcel(workbook, fileName, params, k1, v1).Err? <==> ProcessExcel(workbook, fileName, params, k2, v2).Err?
    ensures ProcessExcel(workbook, fileName, params, k1, v1).Ok? ==>
      && ProcessExcel(workbook, fileName, params, k1, v1).value.status == ProcessExcel(workbook, fileName, params, k2, v2).value.status
      && Code(ProcessExcel(workbook, fileName, params, k1, v1).value) == Code(ProcessExcel(workbook, fileName, params, k2, v2).value)
  {
    if |params| >= 1 && IsExcelFile(fileName) && Bound(params).Ok? {
      var d := Bound(params).value;
      VariablesOrderFree(workbook, fileName, d, k1, k2);
      ChecksOrderFree(workbook, d.validates, v1, v2);
    }
  }

  lemma VariablesOrderFree(workbook: Workbook, fileName: string, d: Directives, k1: seq<string>, k2: seq<string>)
    requires Enumerates(k1, d.variables) && Enumerates(k2, d.variables)
    ensures ExcelVariables(workbook, fileName, d.sheetName, d.variables, k1).Err?
        <==> ExcelVariables(workbook, fileName, d.sheetName, d.variables, k2).Err?
  {
    var sheet := DefaultSheet(workbook, d.sheetName);
    if sheet.Ok? {
      var agency, eval := AgencyCode(fileName), Evaluator(workbook, fileName, sheet.value);
      EvaluatedErr(agency, eval, d.variables, k1);
      EvaluatedErr(agency, eval, d.variables, k2);
      if exists k | 0 <= k < |k1| :: ToLower(k1[k]) != SkippedKey && eval(d.variables[k1[k]]).Err? {
        var k :| 0 <= k < |k1| && ToLower(k1[k]) != SkippedKey && eval(d.variables[k1[k]]).Err?;
        var j :| 0 <= j < |k2| && k2[j] == k1[k];
      }
      if exists k | 0 <= k < |k2| :: ToLower(k2[k]) != SkippedKey && eval(d.variables[k2[k]]).Err? {
        var k :| 0 <= k < |k2| && ToLower(k2[k]) != SkippedKey && eval(d.variables[k2[k]]).Err?;
        var j :| 0 <= j < |k1| && k1[j] == k2[k];
      }
    }
  }

  lemma ChecksOrderFree(workbook: Workbook, s: set<Validate>, v1: seq<Validate>, v2: seq<Validate>)
    requires Lists(v1, s) && Lists(v2, s)
    ensures Checked(workbook, v1).Err? <==> Checked(workbook, v2).Err?
    ensures Checked(workbook, v1).Ok? ==> SameKinds(Checked(workbook, v1).value, Checked(workbook, v2).value)
  {
    var effect := Effects(workbook);
    MergedErr(effect, v1);
    MergedErr(effect, v2);
    if exists k | 0 <= k < |v1| :: effect(v1[k]).Err? {
      var k :| 0 <= k < |v1| && effect(v1[k]).Err?;
      var j :| 0 <= j < |v2| && v2[j] == v1[k];
    }
    if exists k | 0 <= k < |v2| :: effect(v2[k]).Err? {
      var k :| 0 <= k < |v2| && effect(v2[k]).Err?;
      var j :| 0 <= j < |v1| && v1[j] == v2[k];
    }
    if Checked(workbook, v1).Ok? {
      var c1, c2 := Checked(workbook, v1).value, Checked(workbook, v2).value;
      if c1.duplicates != map[] {
        var v :| v in c1.duplicates;
        SameFinding(effect, v1, v2, v, "");
      }
      if c2.duplicates != map[] {
        var v :| v in c2.duplicates;
        SameFinding(effect, v1, v2, v, "");
      }
      if c1.cross != [] { SameFinding(effect, v1, v2, Null, c1.cross[0]); }
      if c2.cross != [] { SameFinding(effect, v1, v2, Null, c2.cross[0]); }
      if c1.notFound != [] { SameFinding(effect, v1, v2, Null, c1.notFound[0]); }
      if c2.notFound != [] { SameFinding(effect, v1, v2, Null, c2.notFound[0]); }
    }
  }

  /** Two orders of the same requests collect v and x alike. */
  lemma SameFinding(effect: Validate -> Result<Checks>, v1: seq<Validate>, v2: seq<Validate>, v: Value, x: string)
    requires forall w :: w in v1 <==> w in v2
    requires Merged(effect, v1).Ok? && Merged(effect, v2).Ok?
    ensures var c1, c2 := Merged(effect, v1).value, Merged(effect, v2).value;
      && (v in c1.duplicates <==> v in c2.duplicates)
      && (x in c1.cross <==> x in c2.cross)
      && (x in c1.notFound <==> x in c2.notFound)
  {
    MergedFindings(effect, v1, v, x);
    MergedFindings(effect, v2, v, x);
    SomewhereSameElements(effect, v1, v2, (e: Checks) => v in e.duplicates);
    SomewhereSameElements(effect, v1, v2, (e: Checks) => x in e.cross);
    SomewhereSameElements(effect, v1, v2, (e: Checks) => x in e.notFound);
  }

  /** A CHKDUPLICATE request on a sheet the workbook lacks makes the call fail with
      SHEET_NOT_FOUND, whatever else was found, unless another request throws. */
  lemma MissingSheetFails(workbook: Workbook, order: seq<Validate>, data: map<string, Field>,
                          k: nat, sheetName: string, rangeStr: string, except: Option<set<string>>)
    requires k < |order| && order[k] == CheckDuplicate(sheetName, rangeStr, except) && sheetName !in workbook
    requires Checked(workbook, order).Ok?
    ensures SheetNotFound(sheetName) in Checked(workbook, order).value.notFound
    ensures Report(data, Checked(workbook, order).value).status == Fail
    ensures Code(Report(data, Checked(workbook, order).value)) == SheetNotFoundCode
  {
    var effect := Effects(workbook);
    MissingSheetReported(workbook, sheetName, rangeStr, except);
    var x := SheetNotFound(sheetName);
    MergedFindings(effect, order, Null, x);
    assert effect(order[k]).Ok? && x in effect(order[k]).value.notFound;
    assert Somewhere(effect, order, (e: Checks) => x in e.notFound);
  }

  // ---------------------------------------------------------------- the loops

  /** The validation loop. */
  method CheckAll(workbook: Workbook, order: seq<Validate>) returns (r: Result<Checks>)
    ensures r == Checked(workbook, order)
  {
    var c := NoChecks;
    assert order[..0] == [];
    for i := 0 to |order|
      invariant Checked(workbook, order[..i]) == Ok(c)
    {
      assert order[..i + 1][..i] == order[..i];
      var e := CheckOne(workbook, order[i]);
      if e.Err? {
        CheckedErrStays(workbook, order, i + 1);
        return Err(e.failure);
      }
      c := Merge(c, e.value);
    }
    assert order[..|order|] == order;
    r := Ok(c);
  }

  /** Once the loop has thrown, the remaining requests do not matter. */
  lemma {:induction false} CheckedErrStays(workbook: Workbook, order: seq<Validate>, j: nat)
    requires j <= |order| && Checked(workbook, order[..j]).Err?
    ensures Checked(workbook, order) == Checked(workbook, order[..j])
    decreases |order| - j
  {
    if j < |order| {
      assert order[..j + 1][..j] == order[..j];
      CheckedErrStays(workbook, order, j + 1);
    } else {
      assert order[..j] == order;
    }
  }

  /** One request, with the reader's loops. */
  method CheckOne(workbook: Workbook, v: Validate) returns (r: Result<Checks>)
    ensures r == Effect(workbook, v)
  {
    match v
    case CheckDuplicate(sheetName, rangeStr, except) =>
      var dups: Result<map<Value, seq<string>>>;
      if sheetName !in workbook {
        dups := Err(IllegalArgument(SheetNotFound(sheetName)));
      } else {
        dups := CheckDuplicateValuesInRange(workbook[sheetName], rangeStr, ExceptSet(except));
      }
      if dups.Ok? {
        r := Ok(Checks(dups.value, [], []));
      } else if MissingSheet(dups.failure) {
        r := Ok(Checks(map[], [], [SheetNotFound(sheetName)]));
      } else {
        r := Err(dups.failure);
      }
    case CheckSheetDuplicate(configs) =>
      var sheets :- ReadSheetValues(workbook, configs);
      ReadSheetsLinked(workbook, configs);
      var cross: seq<string> := [];
      if |sheets.names| >= 2 {
        cross := CommonValues(sheets.values[sheets.names[0]], sheets.values[sheets.names[1]]);
      }
      r := Ok(Checks(map[], cross, sheets.notFound));
  }

  /** The loop over a request's sheet configs. */
  method ReadSheetValues(workbook: Workbook, configs: seq<SheetConfig>) returns (r: Result<SheetReads>)
    ensures r == ReadSheets(workbook, configs)
  {
    var sheets := SheetReads([], map[], []);
    assert configs[..0] == [];
    for i := 0 to |configs|
      invariant ReadSheets(workbook, configs[..i]) == Ok(sheets)
    {
      assert configs[..i + 1][..i] == configs[..i];
      var config := configs[i];
      var read := GetAllValuesInRange(workbook, config.sheetName, config.rangeStr, ExceptSet(config.exceptValues));
      if read.Ok? {
        sheets := Put(sheets, config.sheetName, read.value);
      } else if MissingSheet(read.failure) {
        sheets := sheets.(notFound := sheets.notFound + [SheetNotFound(config.sheetName)]);
      } else {
        ReadSheetsErrStays(workbook, configs, i + 1);
        return Err(read.failure);
      }
    }
    assert configs[..|configs|] == configs;
    r := Ok(sheets);
  }

  lemma {:induction false} ReadSheetsErrStays(workbook: Workbook, configs: seq<SheetConfig>, j: nat)
    requires j <= |configs| && ReadSheets(workbook, configs[..j]).Err?
    ensures ReadSheets(workbook, configs) == ReadSheets(workbook, configs[..j])
    decreases |configs| - j
  {
    if j < |configs| {
      assert configs[..j + 1][..j] == configs[..j];
      ReadSheetsErrStays(workbook, configs, j + 1);
    } else {
      assert configs[..j] == configs;
    }
  }

  /** The loop over the second list, testing membership in the first. */
  method CommonValues(list1: seq<string>, list2: seq<string>) returns (r: seq<string>)
    ensures r == Common(list1, list2)
  {
    var set1 := set x | x in list1;
    r := [];
    assert list2[..0] == [];
    for i := 0 to |list2|
      invariant r == Common(list1, list2[..i])
    {
      assert list2[..i + 1][..i] == list2[..i];
      if list2[i] in set1 {
        r := r + [list2[i]];
      }
    }
    assert list2[..|list2|] == list2;
  }

  /** processExcelToWssResult, with its loops. */
  method ProcessExcelToWssResult(workbook: Workbook, fileName: string, params: seq<string>,
                                 keyOrder: seq<string>, validateOrder: seq<Validate>) returns (r: Result<WssResult>)
    requires Iterations(params, keyOrder, validateOrder)
    ensures r == ProcessExcel(workbook, fileName, params, keyOrder, validateOrder)
  {
    if |params| < 1 {
      return Err(IllegalArgument(NoParams));
    }
    if !IsExcelFile(fileName) {
      return Err(IllegalArgument(NotExcel));
    }
    var d :- BindDirectives(params);
    var data :- ReadExcelVariables(workbook, fileName, d.sheetName, d.variables, keyOrder);
    var checks :- CheckAll(workbook, validateOrder);
    r := Ok(Report(data, checks));
  }
}
