/** The directive-argument parsers (ExtractParams.java). Each parser scans with the shared
    top-level splitter and then cleans the pieces: trim, and strip one outer pair of
    double quotes. The specification functions say what each parser returns; the methods
    are the Java loops, proved equal to them. */
module ExtractParams {
  import opened Outcomes
  import opened Strings
  import opened Tokenizer

  // ---------------------------------------------------------------- extractStringParam

  /** Whether the pattern `command\("([^"]+)"\)` matches at position i, and its group. */
  function MatchAt(param: string, command: string, i: nat): (name: Option<string>)
    requires i <= |param|
    ensures name.Some? ==> name.value != [] && '"' !in name.value
    ensures name.Some? ==> OccursAt(param, command + "(\"" + name.value + "\")", i)
  {
    var open := command + "(\"";
    if !OccursAt(param, open, i) then None
    else
      var rest := param[i + |open|..];
      var q := IndexOfChar(rest, '"');
      if q <= 0 || !OccursAt(rest, "\")", q) then None
      else
        assert '"' !in rest[..q] by {
          forall k | 0 <= k < q ensures rest[..q][k] != '"' { assert rest[..q][k] == rest[k]; }
        }
        assert param[i..i + |open| + q + 2] == open + rest[..q] + "\")";
        Some(rest[..q])
  }

  function StringParamFrom(param: string, command: string, i: nat): (r: string)
    requires i <= |param|
    ensures '"' !in r
    decreases |param| - i
  {
    match MatchAt(param, command, i)
    case Some(name) => name
    case None => if i == |param| then "" else StringParamFrom(param, command, i + 1)
  }

  /** extractStringParam: the name inside the leftmost `command("...")`, or "" without one. */
  function ExtractStringParam(param: string, command: string): (r: string)
    ensures '"' !in r
  {
    StringParamFrom(param, command, 0)
  }

  /** `SHEET("Data")` names the sheet Data, whatever follows it. */
  lemma StringParamOfDirective(command: string, name: string, rest: string)
    requires name != [] && '"' !in name
    ensures ExtractStringParam(command + "(\"" + name + "\")" + rest, command) == name
  {
    var param := command + "(\"" + name + "\")" + rest;
    var open := command + "(\"";
    assert param[..|open|] == open;
    var tail := param[|open|..];
    assert tail == name + "\")" + rest;
    assert tail[|name|] == '"';
    assert forall k | 0 <= k < |name| :: tail[k] == name[k];
    assert IndexOfChar(tail, '"') == |name|;
    assert tail[|name|..|name| + 2] == "\")";
    assert tail[..|name|] == name;
  }

  /** Without any `command("` in the text there is no match, and the result is "". */
  lemma {:induction false} StringParamWithoutCommand(param: string, command: string, i: nat)
    requires i <= |param|
    requires forall k | 0 <= k <= |param| :: !OccursAt(param, command + "(\"", k)
    ensures StringParamFrom(param, command, i) == ""
    decreases |param| - i
  {
    if i < |param| {
      StringParamWithoutCommand(param, command, i + 1);
    }
  }

  // ---------------------------------------------------------------- cleaning pieces

  /** `if (p.startsWith("\"") && p.endsWith("\"")) p = p.substring(1, p.length() - 1)`:
      exactly one outer pair of quotes goes, inner quotes stay; a lone `"` both starts
      and ends with a quote, and substring(1, 0) throws. */
  function Unquote(p: string): (r: Result<string>)
    ensures r.Err? <==> p == "\""
    ensures r.Err? ==> r.failure == IndexOutOfBounds
    ensures r.Ok? && StartsWith(p, "\"") && EndsWith(p, "\"") ==> p == "\"" + r.value + "\""
    ensures r.Ok? && !(StartsWith(p, "\"") && EndsWith(p, "\"")) ==> r.value == p
  {
    if StartsWith(p, "\"") && EndsWith(p, "\"") then
      if |p| < 2 then Err(IndexOutOfBounds) else Ok(p[1..|p| - 1])
    else Ok(p)
  }

  function Trimmed(raw: seq<string>): (ts: seq<string>)
    ensures |ts| == |raw| && forall k | 0 <= k < |raw| :: ts[k] == Trim(raw[k])
  {
    seq(|raw|, k requires 0 <= k < |raw| => Trim(raw[k]))
  }

  /** Unquote every piece; a lone quote anywhere throws. */
  function UnquoteAll(ts: seq<string>): (r: Result<seq<string>>)
    ensures r.Ok? <==> forall k | 0 <= k < |ts| :: ts[k] != "\""
    ensures r.Ok? ==> |r.value| == |ts| && forall k | 0 <= k < |ts| :: Unquote(ts[k]) == Ok(r.value[k])
  {
    if forall k | 0 <= k < |ts| :: Unquote(ts[k]).Ok? then
      Ok(seq(|ts|, k requires 0 <= k < |ts| => Unquote(ts[k]).value))
    else Err(IndexOutOfBounds)
  }

  /** Trim, then strip one outer pair of quotes, piece by piece. */
  function CleanPieces(raw: seq<string>): Result<seq<string>>
  {
    UnquoteAll(Trimmed(raw))
  }

  /** The clean-up loop of extractMultipleParams: the trimmed pieces are collected in a
      list, then rewritten in place (`params.set`) with their outer quotes removed. */
  method TrimAndUnquote(raw: seq<string>) returns (r: Result<seq<string>>)
    ensures r == CleanPieces(raw)
  {
    var params := Trimmed(raw);
    ghost var ts := params;
    for i := 0 to |params|
      invariant |params| == |ts|
      invariant forall k | 0 <= k < i :: Unquote(ts[k]) == Ok(params[k])
      invariant forall k | i <= k < |params| :: params[k] == ts[k]
    {
      var p := params[i];
      if StartsWith(p, "\"") && EndsWith(p, "\"") {
        if |p| < 2 {
          assert Unquote(ts[i]).Err?;
          return Err(IndexOutOfBounds);
        }
        params := params[i := p[1..|p| - 1]];
      }
    }
    assert UnquoteAll(ts).Ok?;
    assert UnquoteAll(ts).value == params;
    r := Ok(params);
  }

  // ---------------------------------------------------------------- extractMultipleParams

  /** extractMultipleParams(param, command): the text between `command(` and the last
      character, split at commas outside quotes and brackets, each piece cleaned. */
  function MultipleParams(param: string, command: string): Result<seq<string>>
  {
    if |param| < |command| + 2 then Err(IndexOutOfBounds)
    else CleanPieces(Emitted(param[|command| + 1..|param| - 1], QuotesBrackets))
  }

  method ExtractMultipleParams(param: string, command: string) returns (r: Result<seq<string>>)
    ensures r == MultipleParams(param, command)
  {
    if |param| < |command| + 2 {
      return Err(IndexOutOfBounds);
    }
    var content := param[|command| + 1..|param| - 1];
    var raw := SplitTopLevel(content, QuotesBrackets);
    r := TrimAndUnquote(raw);
  }

  /** The text between `command(` and the closing character. */
  function ParamsText(param: string, command: string): string
    requires |param| >= |command| + 2
  {
    param[|command| + 1..|param| - 1]
  }

  /** One parameter per top-level comma, plus the text after the last comma unless it is
      empty before trimming; each parameter is its piece trimmed, less one outer pair of
      quotes. */
  lemma MultipleParamsPieces(param: string, command: string)
    requires |param| >= |command| + 2
    requires MultipleParams(param, command).Ok?
    ensures var content := ParamsText(param, command);
      var raw := Pieces(content, QuotesBrackets);
      var ps := MultipleParams(param, command).value;
      |ps| == NumCuts(content, |content|, QuotesBrackets) + (if raw[|raw| - 1] == [] then 0 else 1)
      && forall k | 0 <= k < |ps| :: Trim(raw[k]) == ps[k] || Trim(raw[k]) == "\"" + ps[k] + "\""
  {
    var content := ParamsText(param, command);
    PiecesCount(content, QuotesBrackets);
    var raw := Pieces(content, QuotesBrackets);
    var em := Emitted(content, QuotesBrackets);
    assert forall k | 0 <= k < |em| :: em[k] == raw[k];
  }

  /** A quoted string with no delimiter characters inside is its own trim, and Unquote
      gives back its inside. */
  lemma CleanQuoted(x: string)
    ensures Trim(Quoted(x)) == Quoted(x)
    ensures Unquote(Quoted(x)) == Ok(x)
  {
    TrimOfTrimmed(Quoted(x));
    assert Quoted(x)[1..|Quoted(x)| - 1] == x;
  }

  lemma CleanBracketed(z: string)
    ensures Trim(Bracketed(z)) == Bracketed(z)
    ensures Unquote(Bracketed(z)) == Ok(Bracketed(z))
  {
    TrimOfTrimmed(Bracketed(z));
  }

  /** Pieces that are already trimmed and unquote to `vals` clean to `vals`. */
  lemma CleanPiecesOf(raw: seq<string>, vals: seq<string>)
    requires |raw| == |vals|
    requires forall k | 0 <= k < |raw| :: Trim(raw[k]) == raw[k] && Unquote(raw[k]) == Ok(vals[k])
    ensures CleanPieces(raw) == Ok(vals)
  {
    var ts := Trimmed(raw);
    assert ts == raw;
    assert UnquoteAll(ts).Ok?;
    assert UnquoteAll(ts).value == vals;
  }

  /** `FIX("a", "b,c", ["d,e","f"])`-shaped directives: two quoted parameters and an
      array give three parameters, the quotes stripped, the array kept whole. */
  lemma MultipleParamsOfShape(command: string, x: string, y: string, z: string)
    requires NoDelimiter(x) && NoDelimiter(y) && '[' !in z && ']' !in z
    ensures MultipleParams(command + "(" + (Quoted(x) + "," + (Quoted(y) + "," + Bracketed(z))) + ")", command)
         == Ok([x, y, Bracketed(z)])
  {
    var content := Quoted(x) + "," + (Quoted(y) + "," + Bracketed(z));
    var param := command + "(" + content + ")";
    assert param[|command| + 1..|param| - 1] == content;
    var raw := [Quoted(x), Quoted(y), Bracketed(z)];
    assert Emitted(content, QuotesBrackets) == raw by { QuotedQuotedArray(x, y, z); }
    CleanQuoted(x);
    CleanQuoted(y);
    CleanBracketed(z);
    CleanPiecesOf(raw, [x, y, Bracketed(z)]);
  }

  // ---------------------------------------------------------------- extractArrayParam

  /** extractArrayParam: not an array literal gives no values; otherwise the inside is
      split at commas outside quotes only, and each value cleaned. */
  function ArrayParam(param: string): (r: Result<seq<string>>)
    ensures !Enclosed(param, "[", ']') ==> r == Ok([])
  {
    if !Enclosed(param, "[", ']') then Ok([])
    else CleanPieces(Emitted(param[1..|param| - 1], QuotesOnly))
  }

  method ExtractArrayParam(param: string) returns (r: Result<seq<string>>)
    ensures r == ArrayParam(param)
  {
    if !Enclosed(param, "[", ']') {
      return Ok([]);
    }
    var raw := SplitTopLevel(param[1..|param| - 1], QuotesOnly);
    r := TrimAndUnquote(raw);
  }

  /** `["x","y"]` is the two values x and y, commas inside the quotes included. */
  lemma ArrayOfTwo(x: string, y: string)
    requires '"' !in x && '"' !in y
    ensures ArrayParam(Bracketed(Quoted(x) + "," + Quoted(y))) == Ok([x, y])
  {
    var param := Bracketed(Quoted(x) + "," + Quoted(y));
    var content := Quoted(x) + "," + Quoted(y);
    assert param[1..|param| - 1] == content;
    assert Emitted(content, QuotesOnly) == [Quoted(x), Quoted(y)] by { QuotedPair(x, y); }
    CleanQuoted(x);
    CleanQuoted(y);
    CleanPiecesOf([Quoted(x), Quoted(y)], [x, y]);
  }

  // ---------------------------------------------------------------- extractSheetConfigs

  /** One `(sheet, range, except)` tuple of CHKSHEETDUPLICATE. The except values are
      present only when a third field exists and is not NULL. */
  datatype SheetConfig = SheetConfig(sheetName: string, rangeStr: string, exceptValues: Option<set<string>>)

  /** The trimmed fields of a parenthesised tuple, split at commas outside quotes and brackets. */
  function TupleFields(tuple: string): seq<string>
    requires Enclosed(tuple, "(", ')')
  {
    Trimmed(Emitted(Trim(tuple[1..|tuple| - 1]), QuotesBrackets))
  }

  function ExceptValues(fields: seq<string>): Result<Option<set<string>>>
  {
    if |fields| >= 3 && fields[2] != "NULL" then
      match ArrayParam(fields[2])
      case Ok(xs) => Ok(Some(set x | x in xs))
      case Err(e) => Err(e)
    else Ok(None)
  }

  /** A tuple not wrapped in parentheses, or with fewer than two fields, is dropped
      (None); otherwise it is a config whose except values exist exactly when a third
      field exists and is not NULL. */
  function TupleConfig(tuple: string): (r: Result<Option<SheetConfig>>)
    ensures !Enclosed(tuple, "(", ')') ==> r == Ok(None)
    ensures Enclosed(tuple, "(", ')') && |TupleFields(tuple)| < 2 ==> r == Ok(None)
    ensures r.Ok? && r.value.Some? ==>
      Enclosed(tuple, "(", ')') && |TupleFields(tuple)| >= 2
      && r.value.value.rangeStr == TupleFields(tuple)[1]
      && (r.value.value.exceptValues.Some? <==> |TupleFields(tuple)| >= 3 && TupleFields(tuple)[2] != "NULL")
  {
    if !Enclosed(tuple, "(", ')') then Ok(None)
    else
      var fields := TupleFields(tuple);
      if |fields| < 2 then Ok(None)
      else
        match Unquote(fields[0])
        case Err(e) => Err(e)
        case Ok(name) =>
          match ExceptValues(fields)
          case Err(e) => Err(e)
          case Ok(except) => Ok(Some(SheetConfig(name, fields[1], except)))
  }

  method ParseSheetTuple(tuple: string) returns (r: Result<Option<SheetConfig>>)
    ensures r == TupleConfig(tuple)
  {
    if !Enclosed(tuple, "(", ')') {
      return Ok(None);
    }
    var inner := Trim(tuple[1..|tuple| - 1]);
    var raw := SplitTopLevel(inner, QuotesBrackets);
    var params := Trimmed(raw);
    if |params| < 2 {
      return Ok(None);
    }
    var sheetName :- Unquote(params[0]);
    var exceptValues: Option<set<string>> := None;
    if |params| >= 3 && params[2] != "NULL" {
      var exceptList :- ExtractArrayParam(params[2]);
      exceptValues := Some(set x | x in exceptList);
    }
    return Ok(Some(SheetConfig(sheetName, params[1], exceptValues)));
  }

  function SheetTupleStep(raw: string): Result<Option<SheetConfig>>
  {
    TupleConfig(Trim(raw))
  }

  /** extractSheetConfigs: strip the outer array brackets, split into tuples at commas
      outside quotes, parentheses and brackets, and keep the tuples that make a config. */
  function SheetConfigs(content: string): Result<seq<SheetConfig>>
  {
    if |content| < 2 then Err(IndexOutOfBounds)
    else Collect(Emitted(Trim(content[1..|content| - 1]), AllDepths), SheetTupleStep)
  }

  method ExtractSheetConfigs(content: string) returns (r: Result<seq<SheetConfig>>)
    ensures r == SheetConfigs(content)
  {
    if |content| < 2 {
      return Err(IndexOutOfBounds);
    }
    var inner := Trim(content[1..|content| - 1]);
    var tuples := SplitTopLevel(inner, AllDepths);
    var sheetConfigs: seq<SheetConfig> := [];
    for i := 0 to |tuples|
      invariant Collect(tuples[..i], SheetTupleStep) == Ok(sheetConfigs)
    {
      assert tuples[..i + 1] == tuples[..i] + [tuples[i]];
      var config := ParseSheetTuple(Trim(tuples[i]));
      assert config == SheetTupleStep(tuples[i]);
      if config.Err? {
        CollectStepErr(tuples[..i], tuples[i], SheetTupleStep);
        CollectErrStays(tuples, i + 1, SheetTupleStep);
        return Err(config.failure);
      }
      CollectStepOk(tuples[..i], tuples[i], SheetTupleStep, sheetConfigs);
      if config.value.Some? {
        sheetConfigs := sheetConfigs + [config.value.value];
      }
    }
    assert tuples[..|tuples|] == tuples;
    r := Ok(sheetConfigs);
  }

  // ---------------------------------------------------------------- extractCrossFileCompare

  datatype FileConfig = FileConfig(fileName: string, sheetName: string, rangeStr: string)

  /** The parsed cross-file directive: `condition` is present for CROSSFILECOMPARE only. */
  datatype CrossFileDirective = CrossFileDirective(condition: Option<string>, sheetConfigs: seq<FileConfig>)

  const ComparePrefix := "CROSSFILECOMPARE("
  const DuplicatedPrefix := "CROSSFILEDUPLICATED("

  /** `if (s.startsWith("[") && s.endsWith("]")) s = s.substring(1, s.length() - 1).trim()`. */
  function StripBrackets(s: string): string
  {
    if Enclosed(s, "[", ']') then Trim(s[1..|s| - 1]) else s
  }

  /** One field of a cross-file tuple: every quote removed, then trimmed. */
  function CleanField(p: string): (r: string)
    ensures '"' !in r
    ensures |r| <= |p|
  {
    TrimKeepsNoQuote(RemoveQuotes(p));
    Trim(RemoveQuotes(p))
  }

  lemma TrimKeepsNoQuote(s: string)
    requires '"' !in s
    ensures '"' !in Trim(s)
  {
    var r := Trim(s);
    var a := LeadingSpaces(s);
    TrimShape(s);
    forall k | 0 <= k < |r| ensures r[k] != '"' {
      assert r[k] == s[a + k];
    }
  }

  /** The fields of a cross-file tuple: split at commas outside quotes, then cleaned. */
  function TupleParts(t: string): (parts: seq<string>)
    ensures |parts| == |Emitted(t, QuotesOnly)|
    ensures forall k | 0 <= k < |parts| :: parts[k] == CleanField(Emitted(t, QuotesOnly)[k])
  {
    var raw := Emitted(t, QuotesOnly);
    seq(|raw|, k requires 0 <= k < |raw| => CleanField(raw[k]))
  }

  /** parseCrossFileTuple: fewer than three fields throws; fields 0, 1, 2 are the file
      name, sheet name and range, with no quote left in any of them. */
  function CrossFileTuple(tuple: string): (r: Result<FileConfig>)
    ensures r.Err? <==> |TupleParts(StripBrackets(Trim(tuple)))| < 3
    ensures r.Err? ==> r.failure == IllegalArgument("tuple ไม่ครบ 3 ค่า: " + StripBrackets(Trim(tuple)))
    ensures r.Ok? ==> '"' !in r.value.fileName && '"' !in r.value.sheetName && '"' !in r.value.rangeStr
  {
    var t := StripBrackets(Trim(tuple));
    var parts := TupleParts(t);
    if |parts| < 3 then Err(IllegalArgument("tuple ไม่ครบ 3 ค่า: " + t))
    else Ok(FileConfig(parts[0], parts[1], parts[2]))
  }

  method ParseCrossFileTuple(tuple: string) returns (r: Result<FileConfig>)
    ensures r == CrossFileTuple(tuple)
  {
    var t := StripBrackets(Trim(tuple));
    var parts := SplitTupleFields(t);
    if |parts| < 3 {
      return Err(IllegalArgument("tuple ไม่ครบ 3 ค่า: " + t));
    }
    return Ok(FileConfig(parts[0], parts[1], parts[2]));
  }

  /** The field scan of parseCrossFileTuple. */
  method SplitTupleFields(t: string) returns (parts: seq<string>)
    ensures parts == TupleParts(t)
  {
    var raw := SplitTopLevel(t, QuotesOnly);
    parts := [];
    for i := 0 to |raw|
      invariant |parts| == i
      invariant forall k | 0 <= k < i :: parts[k] == CleanField(raw[k])
    {
      parts := parts + [CleanField(raw[i])];
    }
  }

  /** A tuple piece: empty after trim is skipped, otherwise parsed. */
  function FileTupleStep(raw: string): Result<Option<FileConfig>>
  {
    var tuple := Trim(raw);
    if tuple == [] then Ok(None)
    else
      match CrossFileTuple(tuple)
      case Ok(c) => Ok(Some(c))
      case Err(e) => Err(e)
  }

  /** The tuple loop: split the array part at commas outside quotes and brackets. */
  function FileConfigsOf(arrayPart: string): Result<seq<FileConfig>>
  {
    Collect(Emitted(StripBrackets(arrayPart), QuotesBrackets), FileTupleStep)
  }

  /** What is inside `prefix ... )`, trimmed. */
  function Inside(content: string, prefix: string): string
    requires Enclosed(content, prefix, ')') && |content| > |prefix|
  {
    Trim(content[|prefix|..|content| - 1])
  }

  /** The head of a cross-file directive: its condition and the text holding its tuples. */
  datatype Header = Header(condition: Option<string>, arrayPart: string)

  /** The first half of extractCrossFileCompare, corrected: CROSSFILECOMPARE(cond, [...])
      gives the condition before the first comma and the array after it;
      CROSSFILEDUPLICATED([...]) gives what is inside the parentheses (the code as written
      keeps the whole directive, see DirectiveHeaderAsWritten); any other kind takes the
      content as it is. A directive without its keyword and closing parenthesis, or a
      comparison without a comma, throws IllegalArgumentException. */
  function DirectiveHeader(content: string, kind: string): (r: Result<Header>)
    ensures r.Ok? ==> (r.value.condition.Some? <==> kind == "CROSSFILECOMPARE")
    ensures kind != "CROSSFILECOMPARE" && kind != "CROSSFILEDUPLICATED" ==> r == Ok(Header(None, content))
    ensures (kind == "CROSSFILECOMPARE" || kind == "CROSSFILEDUPLICATED") ==>
      (r.Ok? ==> Enclosed(content, kind + "(", ')'))
    ensures kind == "CROSSFILEDUPLICATED" ==> (r.Ok? <==> Enclosed(content, DuplicatedPrefix, ')'))
    ensures kind == "CROSSFILEDUPLICATED" && r.Ok? ==>
      |content| > |DuplicatedPrefix| && r.value.arrayPart == Trim(content[|DuplicatedPrefix|..|content| - 1])
    ensures r.Err? ==> r.failure.IllegalArgument?
  {
    if kind == "CROSSFILECOMPARE" then
      if !Enclosed(content, ComparePrefix, ')') then Err(IllegalArgument("รูปแบบไม่ถูกต้อง: " + content))
      else
        var inner := Inside(content, ComparePrefix);
        var commaIndex := IndexOfChar(inner, ',');
        if commaIndex < 0 then Err(IllegalArgument("ไม่พบ , คั่น condition และ array"))
        else Ok(Header(Some(Trim(inner[..commaIndex])), Trim(inner[commaIndex + 1..])))
    else if kind == "CROSSFILEDUPLICATED" then
      if !Enclosed(content, DuplicatedPrefix, ')') then Err(IllegalArgument("รูปแบบไม่ถูกต้อง: " + content))
      else Ok(Header(None, Inside(content, DuplicatedPrefix)))
    else Ok(Header(None, content))
  }

  /** The first half as written: the CROSSFILEDUPLICATED branch checks the directive's
      shape and trims its inside into `content`, but the tuples are read from
      `arrayPart`, which still holds the whole directive. */
  function DirectiveHeaderAsWritten(content: string, kind: string): (r: Result<Header>)
    ensures kind != "CROSSFILEDUPLICATED" ==> r == DirectiveHeader(content, kind)
    ensures kind == "CROSSFILEDUPLICATED" ==> (r.Ok? <==> DirectiveHeader(content, kind).Ok?)
    ensures kind == "CROSSFILEDUPLICATED" && r.Err? ==> r == DirectiveHeader(content, kind)
    ensures kind == "CROSSFILEDUPLICATED" && r.Ok? ==> r.value == Header(None, content)
  {
    if kind == "CROSSFILEDUPLICATED" then
      if !Enclosed(content, DuplicatedPrefix, ')') then Err(IllegalArgument("รูปแบบไม่ถูกต้อง: " + content))
      else Ok(Header(None, content))
    else DirectiveHeader(content, kind)
  }

  /** The second half: the tuples of the array part, with the header's condition. */
  function WithConfigs(header: Result<Header>): Result<CrossFileDirective>
  {
    match header
    case Err(e) => Err(e)
    case Ok(h) =>
      match FileConfigsOf(h.arrayPart)
      case Err(e) => Err(e)
      case Ok(cs) => Ok(CrossFileDirective(h.condition, cs))
  }

  /** extractCrossFileCompare, with the CROSSFILEDUPLICATED tuples read from inside the
      parentheses. Only a CROSSFILECOMPARE result carries a condition. */
  function CrossFileCompare(content: string, kind: string): (r: Result<CrossFileDirective>)
    ensures r.Ok? ==> (r.value.condition.Some? <==> kind == "CROSSFILECOMPARE")
    ensures r.Err? ==> DirectiveHeader(content, kind).Err? || FileConfigsOf(DirectiveHeader(content, kind).value.arrayPart).Err?
  {
    WithConfigs(DirectiveHeader(content, kind))
  }

  /** extractCrossFileCompare as written; it differs only for CROSSFILEDUPLICATED. */
  function CrossFileCompareAsWritten(content: string, kind: string): (r: Result<CrossFileDirective>)
    ensures kind != "CROSSFILEDUPLICATED" ==> r == CrossFileCompare(content, kind)
    ensures r.Ok? ==> (r.value.condition.Some? <==> kind == "CROSSFILECOMPARE")
  {
    WithConfigs(DirectiveHeaderAsWritten(content, kind))
  }

  /** extractCrossFileCompare as the program runs it. */
  method ExtractCrossFileCompare(content: string, kind: string) returns (r: Result<CrossFileDirective>)
    ensures r == CrossFileCompareAsWritten(content, kind)
  {
    var header :- ParseDirectiveHeader(content, kind);
    var configs := CollectFileConfigs(header.arrayPart);
    match configs
    case Err(e) => r := Err(e);
    case Ok(cs) => r := Ok(CrossFileDirective(header.condition, cs));
  }

  /** The header code as written: the CROSSFILEDUPLICATED branch checks the shape and
      trims the inside into `content`, which nothing reads afterwards, so `arrayPart`
      keeps the whole directive. */
  method ParseDirectiveHeader(content: string, kind: string) returns (r: Result<Header>)
    ensures r == DirectiveHeaderAsWritten(content, kind)
  {
    var condition: Option<string> := None;
    var arrayPart := content;
    if kind == "CROSSFILECOMPARE" {
      if !Enclosed(content, ComparePrefix, ')') {
        return Err(IllegalArgument("รูปแบบไม่ถูกต้อง: " + content));
      }
      var inner := Trim(content[|ComparePrefix|..|content| - 1]);
      var commaIndex := IndexOfChar(inner, ',');
      if commaIndex == -1 {
        return Err(IllegalArgument("ไม่พบ , คั่น condition และ array"));
      }
      condition := Some(Trim(inner[..commaIndex]));
      arrayPart := Trim(inner[commaIndex + 1..]);
    } else if kind == "CROSSFILEDUPLICATED" {
      if !Enclosed(content, DuplicatedPrefix, ')') {
        return Err(IllegalArgument("รูปแบบไม่ถูกต้อง: " + content));
      }
    }
    r := Ok(Header(condition, arrayPart));
  }

  /** extractCrossFileCompare's tuples: split, then the tuple loop. */
  method CollectFileConfigs(arrayPart: string) returns (r: Result<seq<FileConfig>>)
    ensures r == FileConfigsOf(arrayPart)
  {
    var tuples := SplitTopLevel(StripBrackets(arrayPart), QuotesBrackets);
    r := CollectFileTuples(tuples);
  }

  /** The tuple loop of extractCrossFileCompare: the first tuple that fails to parse
      ends it with that failure; blank tuples are skipped. */
  method CollectFileTuples(tuples: seq<string>) returns (r: Result<seq<FileConfig>>)
    ensures r == Collect(tuples, FileTupleStep)
  {
    var sheetConfigs: seq<FileConfig> := [];
    for i := 0 to |tuples|
      invariant Collect(tuples[..i], FileTupleStep) == Ok(sheetConfigs)
    {
      assert tuples[..i + 1] == tuples[..i] + [tuples[i]];
      var config := ReadFileTuple(tuples[i]);
      if config.Err? {
        CollectStepErr(tuples[..i], tuples[i], FileTupleStep);
        CollectErrStays(tuples, i + 1, FileTupleStep);
        return Err(config.failure);
      }
      CollectStepOk(tuples[..i], tuples[i], FileTupleStep, sheetConfigs);
      if config.value.Some? {
        sheetConfigs := sheetConfigs + [config.value.value];
      }
    }
    assert tuples[..|tuples|] == tuples;
    r := Ok(sheetConfigs);
  }

  /** The body of the tuple loop: a blank tuple is skipped, any other is parsed. */
  method ReadFileTuple(raw: string) returns (r: Result<Option<FileConfig>>)
    ensures r == FileTupleStep(raw)
  {
    var tuple := Trim(raw);
    if tuple == [] {
      return Ok(None);
    }
    var config :- ParseCrossFileTuple(tuple);
    return Ok(Some(config));
  }

  // ---------------------------------------------------------------- the CROSSFILEDUPLICATED finding

  /** A cross-file tuple `["f","s","r"]`. */
  function TupleText(f: string, s: string, r: string): string
  {
    Bracketed(TupleInner(f, s, r))
  }

  function TupleInner(f: string, s: string, r: string): string
  {
    Quoted(f) + "," + (Quoted(s) + "," + Quoted(r))
  }

  /** A plain value: no grouping characters and no blanks at either end. */
  predicate Plain(x: string)
  {
    NoDelimiter(x) && Trim(x) == x
  }

  lemma CleanFieldOfQuoted(x: string)
    requires Plain(x)
    ensures CleanField(Quoted(x)) == x
  {
    assert '"' !in x by { assert forall k | 0 <= k < |x| :: x[k] !in "\"[]()"; }
    ReplaceCharConcat(['"'] + x, ['"'], '"', "");
    ReplaceCharConcat(['"'], x, '"', "");
    assert ReplaceChar(['"'], '"', "") == [] by { assert ['"'][1..] == []; }
    assert RemoveQuotes(Quoted(x)) == x;
  }

  /** An array literal whose inside is already trimmed is its own trim, and stripping
      its brackets gives the inside back. */
  lemma StripBracketsOf(y: string)
    requires Trim(y) == y
    ensures Trim(Bracketed(y)) == Bracketed(y)
    ensures StripBrackets(Bracketed(y)) == y
  {
    var b := Bracketed(y);
    TrimOfTrimmed(b);
    assert b[..1] == "[" && b[|b| - 1..] == "]";
    assert b[1..|b| - 1] == y;
  }

  /** Text that splits into three quoted plain values has those values as its fields. */
  lemma PartsOfQuoted(inner: string, f: string, s: string, r: string)
    requires Plain(f) && Plain(s) && Plain(r)
    requires Emitted(inner, QuotesOnly) == [Quoted(f), Quoted(s), Quoted(r)]
    ensures TupleParts(inner) == [f, s, r]
  {
    CleanFieldOfQuoted(f);
    CleanFieldOfQuoted(s);
    CleanFieldOfQuoted(r);
    PartsOfThree(inner, Quoted(f), Quoted(s), Quoted(r));
  }

  /** Text that splits into three pieces has their cleaned forms as its fields. */
  lemma PartsOfThree(inner: string, a: string, b: string, c: string)
    requires Emitted(inner, QuotesOnly) == [a, b, c]
    ensures TupleParts(inner) == [CleanField(a), CleanField(b), CleanField(c)]
  {
  }

  /** An array literal around trimmed text with three fields is a tuple of those fields. */
  lemma TupleOfParts(inner: string, f: string, s: string, r: string)
    requires Trim(inner) == inner && TupleParts(inner) == [f, s, r]
    ensures FileTupleStep(Bracketed(inner)) == Ok(Some(FileConfig(f, s, r)))
  {
    StripBracketsOf(inner);
  }

  /** The inside of a tuple of plain values is trimmed and splits into its three values. */
  lemma InnerOfPlain(f: string, s: string, r: string)
    requires Plain(f) && Plain(s) && Plain(r)
    ensures Trim(TupleInner(f, s, r)) == TupleInner(f, s, r)
    ensures Emitted(TupleInner(f, s, r), QuotesOnly) == [Quoted(f), Quoted(s), Quoted(r)]
  {
    TrimOfTrimmed(TupleInner(f, s, r));
    QuotedTriple(f, s, r, QuotesOnly);
  }

  /** A tuple of three quoted plain values parses to those values. */
  lemma TupleOfPlain(f: string, s: string, r: string)
    requires Plain(f) && Plain(s) && Plain(r)
    ensures FileTupleStep(TupleText(f, s, r)) == Ok(Some(FileConfig(f, s, r)))
  {
    var inner := TupleInner(f, s, r);
    InnerOfPlain(f, s, r);
    PartsOfQuoted(inner, f, s, r);
    TupleOfParts(inner, f, s, r);
  }

  /** The directive `CROSSFILEDUPLICATED(a)` around an array text. */
  function DuplicatedText(a: string): string
  {
    DuplicatedPrefix + a + ")"
  }

  /** Corrected header: the array part of `CROSSFILEDUPLICATED(a)` is a, trimmed. */
  lemma DuplicatedHeader(a: string)
    requires Trim(a) == a
    ensures DirectiveHeader(DuplicatedText(a), "CROSSFILEDUPLICATED") == Ok(Header(None, a))
  {
    var content := DuplicatedText(a);
    assert content[..|DuplicatedPrefix|] == DuplicatedPrefix;
    assert content[|content| - 1..] == ")";
    assert content[|DuplicatedPrefix|..|content| - 1] == a;
  }

  /** An array of two tuples that each parse gives their two configs. */
  lemma ConfigsOfPair(t1: string, t2: string, c1: FileConfig, c2: FileConfig)
    requires FileTupleStep(t1) == Ok(Some(c1)) && FileTupleStep(t2) == Ok(Some(c2))
    requires Trim(t1 + "," + t2) == t1 + "," + t2
    requires Emitted(t1 + "," + t2, QuotesBrackets) == [t1, t2]
    ensures FileConfigsOf(Bracketed(t1 + "," + t2)) == Ok([c1, c2])
  {
    StripBracketsOf(t1 + "," + t2);
    CollectTwo(t1, t2, FileTupleStep, c1, c2);
  }

  /** Two tuples of plain values, comma-separated, are trimmed and split into the two. */
  lemma PairOfPlain(f1: string, s1: string, r1: string, f2: string, s2: string, r2: string)
    requires Plain(f1) && Plain(s1) && Plain(r1) && Plain(f2) && Plain(s2) && Plain(r2)
    ensures var t1, t2 := TupleText(f1, s1, r1), TupleText(f2, s2, r2);
      Trim(t1 + "," + t2) == t1 + "," + t2 && Emitted(t1 + "," + t2, QuotesBrackets) == [t1, t2]
  {
    var t1, t2 := TupleText(f1, s1, r1), TupleText(f2, s2, r2);
    TrimOfTrimmed(t1 + "," + t2);
    QuotedTriple(f1, s1, r1, QuotesBrackets);
    QuotedTriple(f2, s2, r2, QuotesBrackets);
    BracketedPair(TupleInner(f1, s1, r1), TupleInner(f2, s2, r2));
  }

  /** Corrected: the directive's two tuples are its two file configs, without a condition. */
  lemma DuplicatedReadsTuples(f1: string, s1: string, r1: string, f2: string, s2: string, r2: string)
    requires Plain(f1) && Plain(s1) && Plain(r1) && Plain(f2) && Plain(s2) && Plain(r2)
    ensures CrossFileCompare(DuplicatedText(Bracketed(TupleText(f1, s1, r1) + "," + TupleText(f2, s2, r2))), "CROSSFILEDUPLICATED")
         == Ok(CrossFileDirective(None, [FileConfig(f1, s1, r1), FileConfig(f2, s2, r2)]))
  {
    var t1, t2 := TupleText(f1, s1, r1), TupleText(f2, s2, r2);
    PairOfPlain(f1, s1, r1, f2, s2, r2);
    StripBracketsOf(t1 + "," + t2);
    DuplicatedHeader(Bracketed(t1 + "," + t2));
    TupleOfPlain(f1, s1, r1);
    TupleOfPlain(f2, s2, r2);
    ConfigsOfPair(t1, t2, FileConfig(f1, s1, r1), FileConfig(f2, s2, r2));
  }

  /** A start of text with no comma, quote, bracket or outer blank survives the
      cross-file tuple parser into the file name. */
  lemma TupleKeepsPrefix(p: string, tuple: string)
    requires p <= tuple && p != [] && ',' !in p && '"' !in p && p[0] != '['
    requires !IsSpace(p[0]) && !IsSpace(p[|p| - 1]) && Trim(tuple) == tuple
    ensures CrossFileTuple(tuple).Ok? ==> p <= CrossFileTuple(tuple).value.fileName
  {
    assert !Enclosed(tuple, "[", ']') by { assert tuple[0] == p[0]; }
    assert tuple[..|p|] == p;
    FirstPieceKeepsPrefix(tuple, |p|, QuotesOnly);
    var first := Emitted(tuple, QuotesOnly)[0];
    RemoveQuotesKeepsPrefix(p, first);
    TrimKeepsPrefix(p, RemoveQuotes(first));
  }

  /** The same start survives the array splitter into the first tuple. */
  lemma ArrayKeepsPrefix(p: string, content: string)
    requires p <= content && p != [] && ',' !in p && p[0] != '['
    requires !IsSpace(p[0]) && !IsSpace(p[|p| - 1])
    ensures StripBrackets(content) == content
    ensures |Emitted(content, QuotesBrackets)| >= 1 && p <= Trim(Emitted(content, QuotesBrackets)[0])
  {
    assert !Enclosed(content, "[", ']') by { assert content[0] == p[0]; }
    assert content[..|p|] == p;
    FirstPieceKeepsPrefix(content, |p|, QuotesBrackets);
    TrimKeepsPrefix(p, Emitted(content, QuotesBrackets)[0]);
  }

  lemma KeywordChars()
    ensures var p := DuplicatedPrefix;
      ',' !in p && '"' !in p && p[0] != '[' && !IsSpace(p[0]) && !IsSpace(p[|p| - 1])
  {
  }

  /** As written: whenever the CROSSFILEDUPLICATED branch succeeds, the first file name
      read still begins with the directive's keyword. */
  lemma DuplicatedAsWrittenKeepsKeyword(content: string)
    requires CrossFileCompareAsWritten(content, "CROSSFILEDUPLICATED").Ok?
    ensures var cs := CrossFileCompareAsWritten(content, "CROSSFILEDUPLICATED").value.sheetConfigs;
      |cs| >= 1 && StartsWith(cs[0].fileName, DuplicatedPrefix)
  {
    var p := DuplicatedPrefix;
    KeywordChars();
    assert DirectiveHeaderAsWritten(content, "CROSSFILEDUPLICATED").value.arrayPart == content;
    assert p <= content;
    ArrayKeepsPrefix(p, content);
    var pieces := Emitted(content, QuotesBrackets);
    var tuple := Trim(pieces[0]);
    assert FileConfigsOf(content) == Collect(pieces, FileTupleStep);
    CollectFirst(pieces, FileTupleStep);
    TrimIdempotent(pieces[0]);
    TupleKeepsPrefix(p, tuple);
  }

  /** So whenever the corrected reading finds a plain first file name, the reading as
      written differs from it. */
  lemma DuplicatedAsWrittenDiffers(content: string)
    requires CrossFileCompare(content, "CROSSFILEDUPLICATED").Ok?
    requires var cs := CrossFileCompare(content, "CROSSFILEDUPLICATED").value.sheetConfigs;
      |cs| >= 1 && NoDelimiter(cs[0].fileName)
    ensures CrossFileCompareAsWritten(content, "CROSSFILEDUPLICATED") != CrossFileCompare(content, "CROSSFILEDUPLICATED")
  {
    var written := CrossFileCompareAsWritten(content, "CROSSFILEDUPLICATED");
    var name := CrossFileCompare(content, "CROSSFILEDUPLICATED").value.sheetConfigs[0].fileName;
    if written.Ok? {
      DuplicatedAsWrittenKeepsKeyword(content);
      KeywordNotPlain(written.value.sheetConfigs[0].fileName, name);
    }
  }

  /** A name that starts with the keyword holds a parenthesis, which a plain name lacks. */
  lemma KeywordNotPlain(seen: string, name: string)
    requires StartsWith(seen, DuplicatedPrefix) && NoDelimiter(name)
    ensures seen != name
  {
    assert seen[|DuplicatedPrefix| - 1] == '(' by { assert seen[..|DuplicatedPrefix|] == DuplicatedPrefix; }
  }

  /** For example, on `CROSSFILEDUPLICATED([["f1","s1","r1"],["f2","s2","r2"]])`. */
  lemma DuplicatedExampleDiffers(f1: string, s1: string, r1: string, f2: string, s2: string, r2: string)
    requires Plain(f1) && Plain(s1) && Plain(r1) && Plain(f2) && Plain(s2) && Plain(r2)
    ensures var content := DuplicatedText(Bracketed(TupleText(f1, s1, r1) + "," + TupleText(f2, s2, r2)));
      CrossFileCompareAsWritten(content, "CROSSFILEDUPLICATED") != CrossFileCompare(content, "CROSSFILEDUPLICATED")
  {
    var content := DuplicatedText(Bracketed(TupleText(f1, s1, r1) + "," + TupleText(f2, s2, r2)));
    DuplicatedReadsTuples(f1, s1, r1, f2, s2, r2);
    DuplicatedAsWrittenDiffers(content);
  }
}
