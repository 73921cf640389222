/** The character scanner that every directive splitter shares. It walks the text once,
    flips a quote flag at each '"', keeps bracket and parenthesis depth counters, and
    cuts at a comma only when it is outside quotes and at depth zero in every counter the
    splitter consults. The counters count inside quotes too, and may go negative.

    The specification is the recursive function Pieces: the cuts are the commas whose
    prefix is Balanced, and Pieces splits at the last cut, then at the cuts before it. */
module Tokenizer {
  import opened Strings

  /** Which depth counters a splitter consults before cutting at a comma.
      The quote flag is consulted by every splitter. */
  datatype Mode = Mode(brackets: bool, parens: bool)

  /** extractArrayParam and parseCrossFileTuple. */
  const QuotesOnly := Mode(false, false)
  /** extractMultipleParams, the tuple fields of extractSheetConfigs, extractCrossFileCompare. */
  const QuotesBrackets := Mode(true, false)
  /** The ROWBY column-template splitter. */
  const QuotesParens := Mode(false, true)
  /** The tuple splitter of extractSheetConfigs. */
  const AllDepths := Mode(true, true)

  function Count(s: string, c: char): nat
  {
    if s == [] then 0 else Count(s[..|s| - 1], c) + (if s[|s| - 1] == c then 1 else 0)
  }

  /** After reading p the scanner is outside quotes and at depth zero in every counter
      the mode consults. */
  predicate Balanced(p: string, m: Mode)
  {
    Count(p, '"') % 2 == 0
    && (m.brackets ==> Count(p, '[') == Count(p, ']'))
    && (m.parens ==> Count(p, '(') == Count(p, ')'))
  }

  /** Position i is a top-level comma: the scanner cuts there. */
  predicate IsCut(s: string, i: nat, m: Mode)
  {
    i < |s| && s[i] == ',' && Balanced(s[..i], m)
  }

  /** The last cut below k, or -1 when there is none. */
  function LastCut(s: string, k: nat, m: Mode): (j: int)
    requires k <= |s|
    ensures -1 <= j < k
  {
    if k == 0 then -1 else if IsCut(s, k - 1, m) then k - 1 else LastCut(s, k - 1, m)
  }

  /** LastCut finds a cut, and no cut lies between it and k. */
  lemma {:induction false} LastCutShape(s: string, k: nat, m: Mode)
    requires k <= |s|
    ensures var j := LastCut(s, k, m);
      (j >= 0 ==> IsCut(s, j, m)) && forall i | j < i < k :: !IsCut(s, i, m)
    decreases k
  {
    if k > 0 && !IsCut(s, k - 1, m) {
      LastCutShape(s, k - 1, m);
    }
  }

  /** The raw pieces between cuts, empty ones included: one more than there are cuts. */
  function Pieces(s: string, m: Mode): (r: seq<string>)
    ensures |r| >= 1
    decreases |s|
  {
    var j := LastCut(s, |s|, m);
    if j < 0 then [s] else Pieces(s[..j], m) + [s[j + 1..]]
  }

  /** What the Java loops collect: every piece ended by a cut, and the text after the
      last cut only when it is not empty (`currentParam.length() > 0`). */
  function Emitted(s: string, m: Mode): seq<string>
  {
    var r := Pieces(s, m);
    if r[|r| - 1] == [] then r[..|r| - 1] else r
  }

  /** The scanning loop shared by the splitters of ExtractParams and ExcelReader.
      Pieces are returned as collected, before any trim. */
  method SplitTopLevel(s: string, m: Mode) returns (pieces: seq<string>)
    ensures pieces == Emitted(s, m)
  {
    var done: seq<string> := [];
    var current: string := "";
    var inQuotes := false;
    var bracketCount, parenthesisCount := 0, 0;
    for i := 0 to |s|
      invariant Scanned(s[..i], m, inQuotes, bracketCount, parenthesisCount, done, current)
    {
      var c := s[i];
      assert s[..i + 1] == s[..i] + [c];
      ghost var (q0, b0, p0, d0, c0) := (inQuotes, bracketCount, parenthesisCount, done, current);
      var cut;
      inQuotes, bracketCount, parenthesisCount, cut := ScanChar(c, m, inQuotes, bracketCount, parenthesisCount);
      if cut {
        done := done + [current];
        current := "";
      } else {
        current := current + [c];
      }
      ScanAdvance(s[..i], c, m, q0, b0, p0, d0, c0, cut);
    }
    assert s[..|s|] == s;
    if |current| > 0 {
      pieces := done + [current];
    } else {
      pieces := done;
    }
  }

  /** The branch chain of the scanning loop for one character: a quote flips the flag,
      an opening or closing bracket or parenthesis moves its counter, and a comma outside
      quotes at depth zero in every consulted counter is a cut. Every other character,
      and a comma that is not a cut, is appended to the current piece by the caller. */
  method ScanChar(c: char, m: Mode, inQuotes: bool, bracketCount: int, parenthesisCount: int)
    returns (inQuotes': bool, bracketCount': int, parenthesisCount': int, cut: bool)
    ensures inQuotes' <==> (inQuotes != (c == '"'))
    ensures bracketCount' == bracketCount + (if c == '[' then 1 else 0) - (if c == ']' then 1 else 0)
    ensures parenthesisCount' == parenthesisCount + (if c == '(' then 1 else 0) - (if c == ')' then 1 else 0)
    ensures cut <==> c == ',' && !inQuotes && (!m.brackets || bracketCount == 0) && (!m.parens || parenthesisCount == 0)
  {
    inQuotes', bracketCount', parenthesisCount', cut := inQuotes, bracketCount, parenthesisCount, false;
    if c == '"' {
      inQuotes' := !inQuotes;
    } else if c == '[' {
      bracketCount' := bracketCount + 1;
    } else if c == ']' {
      bracketCount' := bracketCount - 1;
    } else if c == '(' {
      parenthesisCount' := parenthesisCount + 1;
    } else if c == ')' {
      parenthesisCount' := parenthesisCount - 1;
    } else if c == ',' && !inQuotes && (!m.brackets || bracketCount == 0) && (!m.parens || parenthesisCount == 0) {
      cut := true;
    }
  }

  // ---------------------------------------------------------------- one more character

  lemma {:induction false} LastCutSnoc(p: string, c: char, k: nat, m: Mode)
    requires k <= |p|
    ensures LastCut(p + [c], k, m) == LastCut(p, k, m)
    decreases k
  {
    if k > 0 {
      var q := p + [c];
      assert q[..k - 1] == p[..k - 1];
      LastCutSnoc(p, c, k - 1, m);
    }
  }

  /** Reading one character either starts a new empty piece (a cut) or extends the last one. */
  lemma PiecesSnoc(p: string, c: char, m: Mode)
    ensures c == ',' && Balanced(p, m) ==> Pieces(p + [c], m) == Pieces(p, m) + [""]
    ensures !(c == ',' && Balanced(p, m)) ==>
      var r := Pieces(p, m); Pieces(p + [c], m) == r[..|r| - 1] + [r[|r| - 1] + [c]]
  {
    var q := p + [c];
    assert q[..|p|] == p;
    assert IsCut(q, |p|, m) <==> c == ',' && Balanced(p, m);
    if c == ',' && Balanced(p, m) {
      assert LastCut(q, |q|, m) == |p|;
      assert q[|p| + 1..] == [];
    } else {
      LastCutSnoc(p, c, |p|, m);
      var j := LastCut(p, |p|, m);
      assert LastCut(q, |q|, m) == j;
      if j >= 0 {
        assert q[..j] == p[..j];
        assert q[j + 1..] == p[j + 1..] + [c];
        var r := Pieces(p, m);
        assert r == Pieces(p[..j], m) + [p[j + 1..]];
        assert Pieces(q, m) == Pieces(p[..j], m) + [q[j + 1..]];
      }
    }
  }

  /** The loop invariant of the scanner after reading p: the flag and the counters
      match the delimiters read, and the pieces collected so far, with the current one,
      are the Pieces of p. */
  predicate Scanned(p: string, m: Mode, inQuotes: bool, bracketCount: int, parenthesisCount: int,
                    done: seq<string>, current: string)
  {
    (inQuotes <==> Count(p, '"') % 2 == 1)
    && bracketCount == Count(p, '[') - Count(p, ']')
    && parenthesisCount == Count(p, '(') - Count(p, ')')
    && done + [current] == Pieces(p, m)
  }

  /** One character read by the scanning loop keeps its invariant. */
  lemma ScanAdvance(p: string, c: char, m: Mode, inQuotes: bool, bracketCount: int, parenthesisCount: int,
                    done: seq<string>, current: string, cut: bool)
    requires Scanned(p, m, inQuotes, bracketCount, parenthesisCount, done, current)
    requires cut <==> c == ',' && !inQuotes && (!m.brackets || bracketCount == 0) && (!m.parens || parenthesisCount == 0)
    ensures Scanned(p + [c], m, inQuotes != (c == '"'),
      bracketCount + (if c == '[' then 1 else 0) - (if c == ']' then 1 else 0),
      parenthesisCount + (if c == '(' then 1 else 0) - (if c == ')' then 1 else 0),
      if cut then done + [current] else done, if cut then "" else current + [c])
  {
    CountSnoc(p, c);
    assert cut <==> c == ',' && Balanced(p, m);
    PiecesSnoc(p, c, m);
    var r := done + [current];
    assert r[..|r| - 1] == done;
  }

  // ---------------------------------------------------------------- counting

  lemma {:induction false} CountConcat(a: string, b: string, c: char)
    ensures Count(a + b, c) == Count(a, c) + Count(b, c)
    decreases |b|
  {
    if b != [] {
      var ab := a + b;
      assert ab[..|ab| - 1] == a + b[..|b| - 1];
      CountConcat(a, b[..|b| - 1], c);
    } else {
      assert a + b == a;
    }
  }

  lemma {:induction false} CountAbsent(s: string, c: char)
    requires c !in s
    ensures Count(s, c) == 0
    decreases |s|
  {
    if s != [] {
      assert s[..|s| - 1] <= s;
      CountAbsent(s[..|s| - 1], c);
    }
  }

  /** The effect of one character on the five counters the scanner keeps. */
  lemma CountSnoc(p: string, c: char)
    ensures Count(p + [c], '"') == Count(p, '"') + (if c == '"' then 1 else 0)
    ensures Count(p + [c], '[') == Count(p, '[') + (if c == '[' then 1 else 0)
    ensures Count(p + [c], ']') == Count(p, ']') + (if c == ']' then 1 else 0)
    ensures Count(p + [c], '(') == Count(p, '(') + (if c == '(' then 1 else 0)
    ensures Count(p + [c], ')') == Count(p, ')') + (if c == ')' then 1 else 0)
  {
    assert (p + [c])[..|p|] == p;
  }

  lemma CountOne(x: char, c: char)
    ensures Count([x], c) == if x == c then 1 else 0
  {
    assert [x][..0] == [];
  }

  // ---------------------------------------------------------------- meaning of the split

  /** Joining the pieces with commas gives back the scanned text: nothing is lost
      and the only characters removed are the cut commas. */
  lemma {:induction false} JoinPieces(s: string, m: Mode)
    ensures Join(Pieces(s, m), ",") == s
    decreases |s|
  {
    var j := LastCut(s, |s|, m);
    LastCutShape(s, |s|, m);
    if j >= 0 {
      var front := Pieces(s[..j], m);
      JoinPieces(s[..j], m);
      var all := front + [s[j + 1..]];
      assert all[..|all| - 1] == front;
      assert s == s[..j] + "," + s[j + 1..];
    }
  }

  function NumCuts(s: string, k: nat, m: Mode): nat
    requires k <= |s|
  {
    if k == 0 then 0 else NumCuts(s, k - 1, m) + (if IsCut(s, k - 1, m) then 1 else 0)
  }

  lemma {:induction false} NumCutsPrefix(s: string, j: nat, k: nat, m: Mode)
    requires k <= j <= |s|
    ensures NumCuts(s[..j], k, m) == NumCuts(s, k, m)
    decreases k
  {
    if k > 0 {
      assert s[..j][..k - 1] == s[..k - 1];
      NumCutsPrefix(s, j, k - 1, m);
    }
  }

  lemma {:induction false} NumCutsAbove(s: string, j: int, k: nat, m: Mode)
    requires -1 <= j < k <= |s|
    requires forall i | j < i < k :: !IsCut(s, i, m)
    ensures NumCuts(s, k, m) == NumCuts(s, j + 1, m)
    decreases k
  {
    if k > j + 1 {
      NumCutsAbove(s, j, k - 1, m);
    }
  }

  /** One piece per cut, plus one. */
  lemma {:induction false} PiecesCount(s: string, m: Mode)
    ensures |Pieces(s, m)| == NumCuts(s, |s|, m) + 1
    decreases |s|
  {
    var j := LastCut(s, |s|, m);
    LastCutShape(s, |s|, m);
    NumCutsAbove(s, j, |s|, m);
    if j >= 0 {
      PiecesCount(s[..j], m);
      NumCutsPrefix(s, j, j, m);
    }
  }

  /** Text without a cut is one piece. */
  lemma Unsplit(x: string, m: Mode)
    requires forall i | 0 <= i < |x| :: !IsCut(x, i, m)
    ensures Pieces(x, m) == [x]
  {
    LastCutShape(x, |x|, m);
  }

  /** Which delimiters a mode treats as an opening/closing pair. */
  predicate Tracks(m: Mode, open: char, close: char)
  {
    (open == '"' && close == '"')
    || (open == '[' && close == ']' && m.brackets)
    || (open == '(' && close == ')' && m.parens)
  }

  /** A quoted string, or a bracketed or parenthesised group the mode tracks, whose
      inside holds no further delimiter of its kind is never cut: its commas stay in it. */
  lemma Wrapped(open: char, close: char, y: string, m: Mode)
    requires Tracks(m, open, close) && open !in y && close !in y
    ensures Pieces([open] + y + [close], m) == [[open] + y + [close]]
  {
    var x := [open] + y + [close];
    forall i | 0 <= i < |x| ensures !IsCut(x, i, m) {
      if 1 <= i <= |y| {
        var p := x[..i];
        assert p == [open] + y[..i - 1];
        assert open !in y[..i - 1] && close !in y[..i - 1] by {
          assert forall k | 0 <= k < i - 1 :: y[..i - 1][k] == y[k];
        }
        CountConcat([open], y[..i - 1], open);
        CountConcat([open], y[..i - 1], close);
        CountAbsent(y[..i - 1], open);
        CountAbsent(y[..i - 1], close);
        CountOne(open, open);
        CountOne(open, close);
      }
    }
    Unsplit(x, m);
  }

  predicate NoDelimiter(y: string) { forall k | 0 <= k < |y| :: y[k] !in "\"[]()" }

  lemma NoDelimiterBalanced(y: string, m: Mode)
    requires NoDelimiter(y)
    ensures Balanced(y, m)
  {
    forall c: char | c in "\"[]()" ensures Count(y, c) == 0 {
      CountAbsent(y, c);
    }
  }

  lemma BalancedConcat(a: string, b: string, m: Mode)
    requires Balanced(a, m) && Balanced(b, m)
    ensures Balanced(a + b, m)
  {
    forall c: char | c in "\"[]()" ensures Count(a + b, c) == Count(a, c) + Count(b, c) {
      CountConcat(a, b, c);
    }
  }

  /** A group whose inside is Balanced and holds no further delimiter of its own kind
      leaves the scanner where it started. */
  lemma WrappedBalanced(open: char, close: char, y: string, m: Mode)
    requires Tracks(m, open, close) && open !in y && close !in y && Balanced(y, m)
    ensures Balanced([open] + y + [close], m)
  {
    var x := [open] + y + [close];
    forall c: char | c in "\"[]()" ensures Count(x, c) == (if open == c then 1 else 0) + Count(y, c) + (if close == c then 1 else 0) {
      CountConcat([open] + y, [close], c);
      CountConcat([open], y, c);
      CountOne(open, c);
      CountOne(close, c);
    }
    CountAbsent(y, open);
    CountAbsent(y, close);
  }

  /** Pieces of a Balanced prefix, a comma, and the rest: the comma is a cut and the rest
      is split as if on its own. */
  lemma {:induction false} PiecesConcat(a: string, b: string, m: Mode)
    requires Balanced(a, m)
    ensures Pieces(a + "," + b, m) == Pieces(a, m) + Pieces(b, m)
    decreases |b|
  {
    var jb := LastCut(b, |b|, m);
    LastCutShift(a, b, |b|, m);
    if jb >= 0 {
      PiecesAtLaterCut(a, b, jb, m);
      PiecesConcat(a, b[..jb], m);
    } else {
      PiecesAtComma(a, b, m);
    }
  }

  /** When the last cut of a comma-joined text lies in its second part, the last piece
      is the rest of that part. */
  lemma PiecesAtLaterCut(a: string, b: string, jb: nat, m: Mode)
    requires jb < |b| && LastCut(a + "," + b, |a| + 1 + |b|, m) == |a| + 1 + jb
    ensures Pieces(a + "," + b, m) == Pieces(a + "," + b[..jb], m) + [b[jb + 1..]]
  {
    CommaSlices(a, b, jb);
  }

  /** When the joining comma is the last cut, the pieces are those of the first part
      followed by the whole second part. */
  lemma PiecesAtComma(a: string, b: string, m: Mode)
    requires LastCut(a + "," + b, |a| + 1 + |b|, m) == |a|
    ensures Pieces(a + "," + b, m) == Pieces(a, m) + [b]
  {
    CommaSlices(a, b, |b|);
  }

  /** How a text joined by a comma slices around a position of its second part. */
  lemma CommaSlices(a: string, b: string, k: nat)
    requires k <= |b|
    ensures |a + "," + b| == |a| + 1 + |b|
    ensures (a + "," + b)[..|a|] == a && (a + "," + b)[|a| + 1..] == b
    ensures (a + "," + b)[..|a| + 1 + k] == a + "," + b[..k]
    ensures k < |b| ==> (a + "," + b)[|a| + 1 + k + 1..] == b[k + 1..]
  {
  }

  lemma IsCutShift(a: string, b: string, k: nat, m: Mode)
    requires Balanced(a, m) && k < |b|
    ensures IsCut(a + "," + b, |a| + 1 + k, m) <==> IsCut(b, k, m)
  {
    var s := a + "," + b;
    var p := s[..|a| + 1 + k];
    assert p == (a + ",") + b[..k];
    forall c: char | c in "\"[]()" ensures Count(p, c) == Count(a, c) + Count(b[..k], c) {
      CountConcat(a + ",", b[..k], c);
      CountConcat(a, ",", c);
      CountOne(',', c);
    }
  }

  lemma {:induction false} LastCutShift(a: string, b: string, k: nat, m: Mode)
    requires Balanced(a, m) && k <= |b|
    ensures var j := LastCut(b, k, m);
      LastCut(a + "," + b, |a| + 1 + k, m) == if j >= 0 then |a| + 1 + j else |a|
    decreases k
  {
    var s := a + "," + b;
    if k == 0 {
      assert s[..|a|] == a;
    } else {
      IsCutShift(a, b, k - 1, m);
      LastCutShift(a, b, k - 1, m);
    }
  }

  /** A comma-free start of the text is the start of its first piece. */
  lemma {:induction false} FirstPieceKeepsPrefix(s: string, n: nat, m: Mode)
    requires n <= |s| && ',' !in s[..n]
    ensures s[..n] <= Pieces(s, m)[0]
    ensures n > 0 ==> |Emitted(s, m)| >= 1 && Emitted(s, m)[0] == Pieces(s, m)[0]
    decreases |s|
  {
    var j := LastCut(s, |s|, m);
    LastCutShape(s, |s|, m);
    if j >= 0 {
      assert j >= n by {
        forall k | 0 <= k < n ensures s[k] != ',' {
          assert s[k] == s[..n][k];
        }
      }
      assert s[..j][..n] == s[..n];
      FirstPieceKeepsPrefix(s[..j], n, m);
    }
  }

  /** A comma ends a piece; a comma at the very end adds no piece, while one followed
      by blanks adds a piece that trims to nothing. */
  lemma TrailingComma(a: string, m: Mode)
    requires Balanced(a, m)
    ensures Emitted(a + ",", m) == Pieces(a, m)
    ensures Emitted(a + ", ", m) == Pieces(a, m) + [" "]
  {
    PiecesConcat(a, "", m);
    assert a + "," + "" == a + ",";
    PiecesConcat(a, " ", m);
    assert a + "," + " " == a + ", ";
    assert !IsCut(" ", 0, m);
    Unsplit(" ", m);
  }

  /** Three groups, each unsplit, the first two Balanced, joined by commas: three pieces. */
  lemma ThreeGroups(a: string, b: string, c: string, m: Mode)
    requires Balanced(a, m) && Balanced(b, m)
    requires Pieces(a, m) == [a] && Pieces(b, m) == [b] && Pieces(c, m) == [c]
    ensures Pieces(a + "," + (b + "," + c), m) == [a, b, c]
  {
    var bc := b + "," + c;
    assert Pieces(bc, m) == [b, c] by { PiecesConcat(b, c, m); }
    PiecesConcat(a, bc, m);
  }

  function Quoted(y: string): string { ['"'] + y + ['"'] }

  function Bracketed(y: string): string { ['['] + y + [']'] }

  /** The shape of the documentation's example `"a","b,c",["d,e","f"]`: two quoted values
      and an array, with commas inside the second value and inside the array, are
      exactly three pieces. */
  lemma QuotedQuotedArray(x: string, y: string, z: string)
    requires NoDelimiter(x) && NoDelimiter(y) && '[' !in z && ']' !in z
    ensures Emitted(Quoted(x) + "," + (Quoted(y) + "," + Bracketed(z)), QuotesBrackets)
         == [Quoted(x), Quoted(y), Bracketed(z)]
  {
    var m := QuotesBrackets;
    assert '"' !in x && '"' !in y by {
      assert forall k | 0 <= k < |x| :: x[k] != '"';
      assert forall k | 0 <= k < |y| :: y[k] != '"';
    }
    NoDelimiterBalanced(x, m);
    NoDelimiterBalanced(y, m);
    Wrapped('"', '"', x, m);
    WrappedBalanced('"', '"', x, m);
    Wrapped('"', '"', y, m);
    WrappedBalanced('"', '"', y, m);
    Wrapped('[', ']', z, m);
    ThreeGroups(Quoted(x), Quoted(y), Bracketed(z), m);
  }

  /** Two quoted strings separated by a comma, with commas inside either, are exactly two
      pieces when only quotes group. */
  lemma QuotedPair(x: string, y: string)
    requires '"' !in x && '"' !in y
    ensures Emitted(Quoted(x) + "," + Quoted(y), QuotesOnly) == [Quoted(x), Quoted(y)]
  {
    var m := QuotesOnly;
    assert Balanced(x, m) by { CountAbsent(x, '"'); }
    Wrapped('"', '"', x, m);
    WrappedBalanced('"', '"', x, m);
    Wrapped('"', '"', y, m);
    PiecesConcat(Quoted(x), Quoted(y), m);
  }

  /** Three quoted plain values separated by commas are three pieces, and the whole is
      balanced and free of brackets, so it can sit inside an array. */
  lemma QuotedTriple(a: string, b: string, c: string, m: Mode)
    requires NoDelimiter(a) && NoDelimiter(b) && NoDelimiter(c)
    ensures Pieces(Quoted(a) + "," + (Quoted(b) + "," + Quoted(c)), m) == [Quoted(a), Quoted(b), Quoted(c)]
    ensures Balanced(Quoted(a) + "," + (Quoted(b) + "," + Quoted(c)), m)
    ensures '[' !in Quoted(a) + "," + (Quoted(b) + "," + Quoted(c))
    ensures ']' !in Quoted(a) + "," + (Quoted(b) + "," + Quoted(c))
  {
    QuotedPlain(a, m);
    QuotedPlain(b, m);
    QuotedPlain(c, m);
    ThreeGroups(Quoted(a), Quoted(b), Quoted(c), m);
    CommaBalanced(m);
    BalancedConcat(Quoted(b), ",", m);
    BalancedConcat(Quoted(b) + ",", Quoted(c), m);
    BalancedConcat(Quoted(a), ",", m);
    BalancedConcat(Quoted(a) + ",", Quoted(b) + "," + Quoted(c), m);
  }

  /** A quoted plain value is one piece, balanced, and free of brackets. */
  lemma QuotedPlain(x: string, m: Mode)
    requires NoDelimiter(x)
    ensures Pieces(Quoted(x), m) == [Quoted(x)] && Balanced(Quoted(x), m)
    ensures '[' !in Quoted(x) && ']' !in Quoted(x)
  {
    assert '"' !in x && '[' !in x && ']' !in x by {
      assert forall k | 0 <= k < |x| :: x[k] !in "\"[]()";
    }
    NoDelimiterBalanced(x, m);
    Wrapped('"', '"', x, m);
    WrappedBalanced('"', '"', x, m);
  }

  lemma CommaBalanced(m: Mode)
    ensures Balanced(",", m)
  {
    CountAbsent(",", '"');
    CountAbsent(",", '[');
    CountAbsent(",", ']');
    CountAbsent(",", '(');
    CountAbsent(",", ')');
  }

  /** Two arrays separated by a comma are two pieces when brackets group. */
  lemma BracketedPair(x: string, y: string)
    requires '[' !in x && ']' !in x && '[' !in y && ']' !in y && Balanced(x, QuotesBrackets)
    ensures Emitted(Bracketed(x) + "," + Bracketed(y), QuotesBrackets) == [Bracketed(x), Bracketed(y)]
  {
    var m := QuotesBrackets;
    Wrapped('[', ']', x, m);
    WrappedBalanced('[', ']', x, m);
    Wrapped('[', ']', y, m);
    PiecesConcat(Bracketed(x), Bracketed(y), m);
  }
}
