/** The java.lang.String and Integer operations the directive interpreter relies on,
    with the exact edge cases of the Java library: `trim` removes every character
    up to U+0020, `split` on a one-character separator drops trailing empty
    strings, `parseInt` accepts an optional sign and ASCII digits only. */
module Strings {
  import opened Outcomes

  // ---------------------------------------------------------------- characters

  /** String.trim() removes every code unit that is <= ' ' (not only blanks). */
  predicate IsSpace(c: char) { c <= ' ' }

  predicate IsDigit(c: char) { '0' <= c <= '9' }

  /** The class `[A-Za-z]` of the cell-reference regular expression. */
  predicate IsLetter(c: char) { 'A' <= c <= 'Z' || 'a' <= c <= 'z' }

  predicate AllDigits(s: string) { forall i | 0 <= i < |s| :: IsDigit(s[i]) }

  predicate AllLetters(s: string) { forall i | 0 <= i < |s| :: IsLetter(s[i]) }

  /** toUpperCase restricted to ASCII; other characters are left alone. */
  function Upper(c: char): (u: char)
    ensures 'a' <= c <= 'z' ==> 'A' <= u <= 'Z' && u as int == c as int - 32
    ensures !('a' <= c <= 'z') ==> u == c
  {
    if 'a' <= c <= 'z' then (c as int - 32) as char else c
  }

  /** toLowerCase restricted to ASCII; other characters are left alone. */
  function Lower(c: char): (l: char)
    ensures 'A' <= c <= 'Z' ==> 'a' <= l <= 'z' && l as int == c as int + 32
    ensures !('A' <= c <= 'Z') ==> l == c
  {
    if 'A' <= c <= 'Z' then (c as int + 32) as char else c
  }

  function ToUpper(s: string): (r: string)
    ensures |r| == |s| && forall i | 0 <= i < |s| :: r[i] == Upper(s[i])
  {
    seq(|s|, i requires 0 <= i < |s| => Upper(s[i]))
  }

  function ToLower(s: string): (r: string)
    ensures |r| == |s| && forall i | 0 <= i < |s| :: r[i] == Lower(s[i])
  {
    seq(|s|, i requires 0 <= i < |s| => Lower(s[i]))
  }

  /** String.equalsIgnoreCase, for ASCII text. */
  predicate EqualsIgnoreCase(a: string, b: string) { ToUpper(a) == ToUpper(b) }

  // ---------------------------------------------------------------- trim

  /** The first index at or after i that is not a space (|s| when there is none). */
  function SkipSpaces(s: string, i: nat): (n: nat)
    requires i <= |s|
    ensures i <= n <= |s|
    decreases |s| - i
  {
    if i < |s| && IsSpace(s[i]) then SkipSpaces(s, i + 1) else i
  }

  lemma {:induction false} SkipSpacesShape(s: string, i: nat)
    requires i <= |s|
    ensures forall k | i <= k < SkipSpaces(s, i) :: IsSpace(s[k])
    ensures SkipSpaces(s, i) < |s| ==> !IsSpace(s[SkipSpaces(s, i)])
    decreases |s| - i
  {
    if i < |s| && IsSpace(s[i]) {
      SkipSpacesShape(s, i + 1);
    }
  }

  /** The end of s[lo..j] once its trailing spaces are dropped. */
  function DropSpaces(s: string, lo: nat, j: nat): (n: nat)
    requires lo <= j <= |s|
    ensures lo <= n <= j
    decreases j - lo
  {
    if lo < j && IsSpace(s[j - 1]) then DropSpaces(s, lo, j - 1) else j
  }

  lemma {:induction false} DropSpacesShape(s: string, lo: nat, j: nat)
    requires lo <= j <= |s|
    ensures forall k | DropSpaces(s, lo, j) <= k < j :: IsSpace(s[k])
    ensures lo < DropSpaces(s, lo, j) ==> !IsSpace(s[DropSpaces(s, lo, j) - 1])
    decreases j - lo
  {
    if lo < j && IsSpace(s[j - 1]) {
      DropSpacesShape(s, lo, j - 1);
    }
  }

  /** The number of leading spaces. */
  function LeadingSpaces(s: string): (n: nat)
    ensures n <= |s|
  {
    SkipSpaces(s, 0)
  }

  /** String.trim(): the result neither starts nor ends with a space; TrimShape says
      where it sits in the input. */
  function Trim(s: string): (r: string)
    ensures |r| <= |s|
    ensures r == [] || (!IsSpace(r[0]) && !IsSpace(r[|r| - 1]))
  {
    var a := LeadingSpaces(s);
    var b := DropSpaces(s, a, |s|);
    SkipSpacesShape(s, 0);
    DropSpacesShape(s, a, |s|);
    s[a..b]
  }

  /** The input of trim is leading spaces, then the result, then trailing spaces. */
  lemma TrimShape(s: string)
    ensures forall k | 0 <= k < LeadingSpaces(s) :: IsSpace(s[k])
    ensures LeadingSpaces(s) + |Trim(s)| <= |s| && Trim(s) == s[LeadingSpaces(s)..LeadingSpaces(s) + |Trim(s)|]
    ensures forall k | LeadingSpaces(s) + |Trim(s)| <= k < |s| :: IsSpace(s[k])
  {
    SkipSpacesShape(s, 0);
    DropSpacesShape(s, LeadingSpaces(s), |s|);
  }

  /** Text that neither starts nor ends with a space is its own trim. */
  lemma TrimOfTrimmed(s: string)
    requires s == [] || (!IsSpace(s[0]) && !IsSpace(s[|s| - 1]))
    ensures Trim(s) == s
  {
    if s != [] {
      TrimShape(s);
      assert LeadingSpaces(s) == 0;
      assert |s| - 1 < |Trim(s)| by { assert !IsSpace(s[|s| - 1]); }
    }
  }

  lemma TrimIdempotent(s: string)
    ensures Trim(Trim(s)) == Trim(s)
  {
    TrimOfTrimmed(Trim(s));
  }

  /** Trimming keeps a start of the text that neither starts nor ends with a space. */
  lemma TrimKeepsPrefix(p: string, s: string)
    requires p <= s && p != [] && !IsSpace(p[0]) && !IsSpace(p[|p| - 1])
    ensures p <= Trim(s)
  {
    TrimShape(s);
    assert s[0] == p[0];
    assert LeadingSpaces(s) == 0;
    assert s[|p| - 1] == p[|p| - 1];
    assert |p| - 1 < |Trim(s)| by { assert !IsSpace(s[|p| - 1]); }
    assert Trim(s)[..|p|] == s[..|p|];
  }

  /** Trim removes exactly the spaces around a core that neither starts nor ends with
      a space: its result does not depend on how the input was padded. */
  lemma TrimOfPadded(sp1: string, r: string, sp2: string)
    requires forall k | 0 <= k < |sp1| :: IsSpace(sp1[k])
    requires forall k | 0 <= k < |sp2| :: IsSpace(sp2[k])
    requires r == [] || (!IsSpace(r[0]) && !IsSpace(r[|r| - 1]))
    ensures Trim(sp1 + r + sp2) == r
  {
    var s := sp1 + r + sp2;
    TrimShape(s);
    var a, t := LeadingSpaces(s), Trim(s);
    assert forall k | 0 <= k < |sp1| :: s[k] == sp1[k];
    assert forall k | 0 <= k < |sp2| :: s[|sp1| + |r| + k] == sp2[k];
    if r == [] {
      assert forall k | 0 <= k < |s| :: IsSpace(s[k]);
    } else {
      assert s[|sp1|] == r[0] && s[|sp1| + |r| - 1] == r[|r| - 1];
      assert a <= |sp1|;
      assert !IsSpace(s[|sp1|]);
      assert t[0] == s[a];
      assert a == |sp1|;
      assert a + |t| >= |sp1| + |r|;
      assert t[|t| - 1] == s[a + |t| - 1];
      assert a + |t| <= |sp1| + |r|;
      assert t == s[|sp1|..|sp1| + |r|];
    }
  }

  /** String.trim().isEmpty(): the spaces at the start run to the end of the text. */
  predicate IsBlank(s: string) { LeadingSpaces(s) == |s| }

  /** IsBlank is exactly an empty trim. */
  lemma BlankIffTrimEmpty(s: string)
    ensures IsBlank(s) <==> Trim(s) == []
  {
    SkipSpacesShape(s, 0);
    DropSpacesShape(s, LeadingSpaces(s), |s|);
  }

  lemma BlankIffAllSpaces(s: string)
    ensures IsBlank(s) <==> forall k | 0 <= k < |s| :: IsSpace(s[k])
  {
    SkipSpacesShape(s, 0);
  }

  // ---------------------------------------------------------------- searching

  predicate StartsWith(s: string, p: string) { |p| <= |s| && s[..|p|] == p }

  predicate EndsWith(s: string, p: string) { |p| <= |s| && s[|s| - |p|..] == p }

  /** `s.startsWith(open) && s.endsWith(close)`. When open's last character is not
      close, the two cannot overlap, so s is longer than open. */
  predicate Enclosed(s: string, open: string, close: char)
    ensures Enclosed(s, open, close) && open != [] && open[|open| - 1] != close ==> |s| > |open|
  {
    StartsWith(s, open) && EndsWith(s, [close])
  }

  predicate OccursAt(s: string, p: string, k: nat) { k + |p| <= |s| && s[k..k + |p|] == p }

  /** String.indexOf(p, from): the first occurrence of p at or after `from`, or -1. */
  function IndexOfFrom(s: string, p: string, from: nat): (r: int)
    requires from <= |s|
    ensures r == -1 || (from <= r && OccursAt(s, p, r))
    ensures forall k | from <= k < (if r < 0 then |s| + 1 else r) :: !OccursAt(s, p, k)
    decreases |s| - from
  {
    if from + |p| > |s| then -1
    else if s[from..from + |p|] == p then from
    else IndexOfFrom(s, p, from + 1)
  }

  function IndexOf(s: string, p: string): (r: int)
  {
    IndexOfFrom(s, p, 0)
  }

  /** String.contains. */
  predicate Contains(s: string, p: string) { IndexOf(s, p) >= 0 }

  /** String.indexOf(c): the first position of c, or -1. */
  function IndexOfChar(s: string, c: char): (r: int)
    ensures -1 <= r < |s|
    ensures r >= 0 ==> s[r] == c
    ensures forall k | 0 <= k < (if r < 0 then |s| else r) :: s[k] != c
  {
    if s == [] then -1
    else if s[0] == c then 0
    else var r := IndexOfChar(s[1..], c); if r < 0 then -1 else r + 1
  }

  /** The first occurrence of c in `a + [c] + b` when a has none. */
  lemma FirstOccurrence(a: string, b: string, c: char)
    requires c !in a
    ensures IndexOfChar(a + [c] + b, c) == |a|
  {
    var s := a + [c] + b;
    assert s[|a|] == c;
    assert forall k | 0 <= k < |a| :: s[k] == a[k];
  }

  // ---------------------------------------------------------------- rewriting

  /** String.replace(c, rep) with a one-character target: every occurrence is replaced. */
  function ReplaceChar(s: string, c: char, rep: string): (r: string)
    ensures c !in rep ==> c !in r
    ensures c !in s ==> r == s
    ensures |rep| <= 1 ==> |r| <= |s|
  {
    if s == [] then []
    else (if s[0] == c then rep else [s[0]]) + ReplaceChar(s[1..], c, rep)
  }

  /** String.replace("\"", ""): every double quote removed, the rest kept in order. */
  function RemoveQuotes(s: string): (r: string)
    ensures '"' !in r
    ensures |r| <= |s|
  {
    ReplaceChar(s, '"', "")
  }

  lemma {:induction false} ReplaceCharConcat(a: string, b: string, c: char, rep: string)
    ensures ReplaceChar(a + b, c, rep) == ReplaceChar(a, c, rep) + ReplaceChar(b, c, rep)
    decreases |a|
  {
    if a != [] {
      assert (a + b)[1..] == a[1..] + b;
      ReplaceCharConcat(a[1..], b, c, rep);
    } else {
      assert a + b == b;
    }
  }

  /** Removing quotes keeps a quote-free start of the text. */
  lemma RemoveQuotesKeepsPrefix(p: string, s: string)
    requires p <= s && '"' !in p
    ensures p <= RemoveQuotes(s)
  {
    assert s == p + s[|p|..];
    ReplaceCharConcat(p, s[|p|..], '"', "");
  }

  /** String.join(sep, parts). */
  function Join(parts: seq<string>, sep: string): string
  {
    if parts == [] then []
    else if |parts| == 1 then parts[0]
    else Join(parts[..|parts| - 1], sep) + sep + parts[|parts| - 1]
  }

  // ---------------------------------------------------------------- numbers

  function DigitChar(d: nat): (c: char)
    requires d < 10
    ensures IsDigit(c)
  {
    ('0' as int + d) as char
  }

  function DigitValue(c: char): (d: nat)
    requires IsDigit(c)
    ensures d < 10
  {
    c as int - '0' as int
  }

  /** The decimal digits of n, most significant first, without leading zeros. */
  function NatToString(n: nat): (s: string)
    ensures |s| >= 1 && AllDigits(s)
    ensures |s| > 1 ==> s[0] != '0'
  {
    if n < 10 then [DigitChar(n)] else NatToString(n / 10) + [DigitChar(n % 10)]
  }

  /** String.valueOf(int) / Integer.toString. */
  function IntToString(i: int): string
  {
    if i < 0 then "-" + NatToString(-i) else NatToString(i)
  }

  /** The value of a non-empty run of decimal digits. */
  function ParseDigits(s: string): nat
    requires AllDigits(s)
  {
    if s == [] then 0 else ParseDigits(s[..|s| - 1]) * 10 + DigitValue(s[|s| - 1])
  }

  lemma {:induction false} ParseDigitsOfNatToString(n: nat)
    ensures ParseDigits(NatToString(n)) == n
  {
    if n >= 10 {
      var s := NatToString(n);
      assert s[..|s| - 1] == NatToString(n / 10);
      ParseDigitsOfNatToString(n / 10);
    }
  }

  /** The range of a Java `int`. */
  const IntMin: int := -0x8000_0000
  const IntMax: int := 0x7FFF_FFFF

  predicate InIntRange(i: int) { IntMin <= i <= IntMax }

  /** The syntax Integer.parseInt accepts: an optional '+' or '-', then one or more
      ASCII digits. */
  predicate IntSyntax(s: string)
  {
    (|s| >= 1 && AllDigits(s)) || (|s| >= 2 && (s[0] == '-' || s[0] == '+') && AllDigits(s[1..]))
  }

  /** The mathematical value of text in that syntax. */
  function SyntaxValue(s: string): int
    requires IntSyntax(s)
  {
    if AllDigits(s) then ParseDigits(s)
    else if s[0] == '-' then -(ParseDigits(s[1..]) as int)
    else ParseDigits(s[1..])
  }

  /** Integer.parseInt: the syntax above with a value that fits in an `int`; anything
      else is a NumberFormatException. */
  function ParseInt(s: string): (r: Result<int>)
    ensures r.Err? ==> r.failure == IllegalArgument("For input string: \"" + s + "\"")
    ensures r.Ok? <==> IntSyntax(s) && InIntRange(SyntaxValue(s))
    ensures r.Ok? ==> InIntRange(r.value)
  {
    if IntSyntax(s) && InIntRange(SyntaxValue(s)) then Ok(SyntaxValue(s))
    else Err(IllegalArgument("For input string: \"" + s + "\""))
  }

  /** parseInt reads back what Integer.toString writes, for every `int`. */
  lemma ParseIntOfIntToString(i: int)
    requires InIntRange(i)
    ensures ParseInt(IntToString(i)) == Ok(i)
  {
    IntToStringSyntax(i);
  }

  /** Integer.toString writes text in parseInt's syntax, whose value is the number. */
  lemma IntToStringSyntax(i: int)
    ensures IntSyntax(IntToString(i)) && SyntaxValue(IntToString(i)) == i
  {
    var s := IntToString(i);
    if i < 0 {
      ParseDigitsOfNatToString(-i);
      assert s[1..] == NatToString(-i);
      assert !AllDigits(s) by { assert !IsDigit(s[0]); }
    } else {
      ParseDigitsOfNatToString(i);
    }
  }

  /** Digits alone parse to their value exactly when it fits in an `int`. */
  lemma ParseIntOfDigits(s: string)
    requires |s| >= 1 && AllDigits(s)
    ensures ParseInt(s).Ok? <==> ParseDigits(s) <= IntMax
    ensures ParseInt(s).Ok? ==> ParseInt(s).value == ParseDigits(s)
  {
  }

  // ---------------------------------------------------------------- split

  /** All the pieces between occurrences of c, empty ones included. */
  function SplitAll(s: string, c: char): (r: seq<string>)
    ensures |r| >= 1
    decreases |s|
  {
    var i := IndexOfChar(s, c);
    if i < 0 then [s] else [s[..i]] + SplitAll(s[i + 1..], c)
  }

  /** No piece holds the separator. */
  lemma {:induction false} SplitAllPieces(s: string, c: char)
    ensures forall k | 0 <= k < |SplitAll(s, c)| :: c !in SplitAll(s, c)[k]
    decreases |s|
  {
    var i := IndexOfChar(s, c);
    if i >= 0 {
      SplitAllPieces(s[i + 1..], c);
    }
  }

  function DropTrailingEmpty(parts: seq<string>): (r: seq<string>)
    ensures r <= parts
    ensures r == [] || r[|r| - 1] != []
    ensures forall k | |r| <= k < |parts| :: parts[k] == []
  {
    if parts == [] || parts[|parts| - 1] != [] then parts
    else DropTrailingEmpty(parts[..|parts| - 1])
  }

  /** String.split(String.valueOf(c)) for a separator that is not a regex
      metacharacter: without an occurrence the whole text is the one piece,
      otherwise trailing empty pieces are removed (so ":" splits into nothing). */
  function JavaSplit(s: string, c: char): (r: seq<string>)
    ensures forall k | 0 <= k < |r| :: c !in r[k]
  {
    if IndexOfChar(s, c) < 0 then [s] else SplitAllPieces(s, c); DropTrailingEmpty(SplitAll(s, c))
  }

  lemma {:induction false} JoinSplitAll(s: string, c: char)
    ensures Join(SplitAll(s, c), [c]) == s
    decreases |s|
  {
    var i := IndexOfChar(s, c);
    var parts := SplitAll(s, c);
    if i >= 0 {
      var rest := SplitAll(s[i + 1..], c);
      assert parts == [s[..i]] + rest;
      JoinSplitAll(s[i + 1..], c);
      JoinPrepend(s[..i], rest, [c]);
      assert Join(parts, [c]) == s[..i] + [c] + s[i + 1..];
      assert s == s[..i] + [c] + s[i + 1..];
    } else {
      assert parts == [s];
    }
  }

  lemma {:induction false} JoinPrepend(x: string, rest: seq<string>, sep: string)
    requires |rest| >= 1
    ensures Join([x] + rest, sep) == x + sep + Join(rest, sep)
    decreases |rest|
  {
    if |rest| > 1 {
      var all := [x] + rest;
      assert all[..|all| - 1] == [x] + rest[..|rest| - 1];
      JoinPrepend(x, rest[..|rest| - 1], sep);
    } else {
      assert [x] + rest == [x, rest[0]];
    }
  }

  /** A range "start:end" with a non-empty end splits into exactly its two halves. */
  lemma SplitTwo(a: string, b: string, c: char)
    requires c !in a && c !in b && b != []
    ensures JavaSplit(a + [c] + b, c) == [a, b]
  {
    var s := a + [c] + b;
    assert s[|a|] == c;
    assert IndexOfChar(s, c) == |a|;
    assert s[..|a|] == a && s[|a| + 1..] == b;
    assert IndexOfChar(b, c) == -1;
    assert SplitAll(b, c) == [b];
    assert SplitAll(s, c) == [a, b];
  }
}
