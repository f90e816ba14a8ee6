/** The regular expressions of the C++ highlighter, each as a hand-written matcher.
    A matcher answers what the regular-expression engine answers at one offset: the
    length of the longest match starting there (greedy matching), or -1. */
module Patterns {
  import opened Text
  import Scan

  datatype Pattern =
    | Word(keyword: string)  // \bKEYWORD\b
    | Number                 // \b-?[0-9]+.[0-9]*|-?[0-9]+\b
    | FunctionName           // \b[A-Za-z0-9_]+(?=\()
    | InfixOperator          // \b[\\=\^\$\?\|\*\+-/<>@]+\b
    | DynamicFunctionName    // \b[A-Za-z0-9_]+!(?=\()
    | Quotation              // ".*"
    | LineComment            // //[^\n]*

  /** A pattern that cannot match the empty string. */
  predicate WellFormed(p: Pattern) {
    p.Word? ==> |p.keyword| >= 1
  }

  /** `-?[0-9]+` matches `text[i..i+n]`. */
  predicate SignedDigits(text: string, i: nat, n: nat) {
    n >= 1 && i + n <= |text| &&
    if text[i] == '-' then n >= 2 && AllInRange(text, i + 1, i + n, Digit)
    else AllInRange(text, i, i + n, Digit)
  }

  /** `-?[0-9]+.[0-9]*` matches `text[i..i+n]`: `.` is unescaped, so any character
      may stand between the two digit runs. */
  predicate SignedDigitsAnyDigits(text: string, i: nat, n: nat) {
    i + n <= |text| &&
    exists d :: 1 <= d < n && SignedDigits(text, i, d) && AllInRange(text, i + d + 1, i + n, Digit)
  }

  /** The declarative meaning of each pattern: it matches the `n` characters at `i`,
      with `\b` and the look-ahead `(?=\()` reading the characters around them. */
  predicate Matches(p: Pattern, text: string, i: nat, n: nat) {
    i + n <= |text| &&
    match p
    case Word(kw) =>
      text[i..i + n] == kw && Boundary(text, i) && Boundary(text, i + n)
    case Number =>
      (Boundary(text, i) && SignedDigitsAnyDigits(text, i, n))
      || (SignedDigits(text, i, n) && Boundary(text, i + n))
    case FunctionName =>
      n >= 1 && Boundary(text, i) && AllInRange(text, i, i + n, WordChar)
      && i + n < |text| && text[i + n] == '('
    case InfixOperator =>
      n >= 1 && Boundary(text, i) && AllInRange(text, i, i + n, OperatorChar)
      && Boundary(text, i + n)
    case DynamicFunctionName =>
      n >= 2 && Boundary(text, i) && AllInRange(text, i, i + n - 1, WordChar)
      && text[i + n - 1] == '!' && i + n < |text| && text[i + n] == '('
    case Quotation =>
      n >= 2 && text[i] == '"' && text[i + n - 1] == '"'
    case LineComment =>
      n >= 2 && text[i] == '/' && text[i + 1] == '/' && AllInRange(text, i + 2, i + n, NotNewline)
  }

  /** What a matcher must return at `i`: -1 when no match starts there, otherwise
      the length of the longest match starting there. */
  ghost predicate IsLongestMatch(p: Pattern, text: string, i: nat, n: int) {
    (n == -1 || (1 <= n && Matches(p, text, i, n)))
    && forall m: nat :: Matches(p, text, i, m) ==> m <= n
  }

  // ---------------------------------------------------------------------------
  // The matchers

  function WordLen(kw: string, text: string, i: nat): int {
    if i + |kw| <= |text| && text[i..i + |kw|] == kw && Boundary(text, i) && Boundary(text, i + |kw|)
    then |kw| else -1
  }

  function NumberLen(text: string, i: nat): int
    requires i <= |text|
  {
    var m := if i < |text| && text[i] == '-' then 1 else 0;
    var d := RunLength(text, i + m, Digit);
    if d == 0 then -1
    else
      var withTail :=
        if !Boundary(text, i) then -1
        else if i + m + d < |text| then m + d + 1 + RunLength(text, i + m + d + 1, Digit)
        else if d >= 2 then m + d      // the last digit stands for `.`
        else -1;
      var plain := if Boundary(text, i + m + d) then m + d else -1;
      if withTail >= plain then withTail else plain
  }

  function FunctionNameLen(text: string, i: nat): int
    requires i <= |text|
  {
    var w := RunLength(text, i, WordChar);
    if w >= 1 && Boundary(text, i) && i + w < |text| && text[i + w] == '(' then w else -1
  }

  function InfixOperatorLen(text: string, i: nat): int
    requires i <= |text|
  {
    var r := RunLength(text, i, OperatorChar);
    if r >= 1 && Boundary(text, i) && Boundary(text, i + r) then r else -1
  }

  function DynamicFunctionNameLen(text: string, i: nat): int
    requires i <= |text|
  {
    var w := RunLength(text, i, WordChar);
    if w >= 1 && Boundary(text, i) && i + w + 1 < |text| && text[i + w] == '!' && text[i + w + 1] == '('
    then w + 1 else -1
  }

  function QuotationLen(text: string, i: nat): int {
    var q := LastIndexOf(text, '"');
    if i < |text| && text[i] == '"' && q > i then q - i + 1 else -1
  }

  function LineCommentLen(text: string, i: nat): int {
    if i + 2 <= |text| && text[i] == '/' && text[i + 1] == '/' then 2 + RunLength(text, i + 2, NotNewline)
    else -1
  }

  // ---------------------------------------------------------------------------
  // Each matcher returns the longest match

  lemma WordLenIsLongest(kw: string, text: string, i: nat)
    requires |kw| >= 1
    ensures IsLongestMatch(Word(kw), text, i, WordLen(kw, text, i))
  {
    forall m: nat | Matches(Word(kw), text, i, m) ensures m <= WordLen(kw, text, i) {
      assert |text[i..i + m]| == m;
    }
  }

  /** `-?[0-9]+` at `i` never reaches past the sign and the digit run that follows it. */
  lemma SignedDigitsWithinRun(text: string, i: nat, n: nat)
    requires SignedDigits(text, i, n)
    ensures var m := if text[i] == '-' then 1 else 0;
            m + 1 <= n <= m + RunLength(text, i + m, Digit)
  {
    if text[i] == '-' {
      RunLengthIsMaximal(text, i + 1, n - 1, Digit);
    } else {
      RunLengthIsMaximal(text, i, n, Digit);
    }
  }

  /** The result of `NumberLen` is a match: the second alternative when it ends at a
      boundary, the first one with the sign-and-digit run before the wildcard. */
  lemma NumberLenMatches(text: string, i: nat)
    requires i <= |text|
    ensures var n := NumberLen(text, i); n == -1 || (1 <= n && Matches(Number, text, i, n))
  {
    var n := NumberLen(text, i);
    var m := if i < |text| && text[i] == '-' then 1 else 0;
    var d := RunLength(text, i + m, Digit);
    RunLengthSpec(text, i + m, Digit);
    if i + m + d < |text| {
      RunLengthSpec(text, i + m + d + 1, Digit);
    }
    if n != -1 {
      assert SignedDigits(text, i, m + d);
      if Boundary(text, i) && i + m + d < |text| && n == m + d + 1 + RunLength(text, i + m + d + 1, Digit) {
        assert SignedDigitsAnyDigits(text, i, n);
      } else if Boundary(text, i) && i + m + d == |text| && d >= 2 && n == m + d {
        assert SignedDigits(text, i, m + d - 1);
        assert SignedDigitsAnyDigits(text, i, n);
      }
    }
  }

  /** A match of the second alternative `-?[0-9]+\b` takes the whole digit run. */
  lemma SignedDigitsAtBoundaryIsLongest(text: string, i: nat, k: nat)
    requires SignedDigits(text, i, k) && Boundary(text, i + k)
    ensures k <= NumberLen(text, i)
  {
    var m := if text[i] == '-' then 1 else 0;
    var d := RunLength(text, i + m, Digit);
    SignedDigitsWithinRun(text, i, k);
    RunLengthSpec(text, i + m, Digit);
    NoBoundaryWithinRun(text, i + m, i + m + d, Digit);
    assert k == m + d;
  }

  /** A match of the first alternative `\b-?[0-9]+.[0-9]*` is no longer than `NumberLen`. */
  lemma SignedDigitsAnyDigitsIsLongest(text: string, i: nat, k: nat)
    requires i <= |text| && Boundary(text, i) && SignedDigitsAnyDigits(text, i, k)
    ensures k <= NumberLen(text, i)
  {
    var m := if text[i] == '-' then 1 else 0;
    var d := RunLength(text, i + m, Digit);
    var dd :| 1 <= dd < k && SignedDigits(text, i, dd) && AllInRange(text, i + dd + 1, i + k, Digit);
    SignedDigitsWithinRun(text, i, dd);
    RunLengthSpec(text, i + m, Digit);
    if dd == m + d {
      RunLengthIsMaximal(text, i + m + d + 1, k - (m + d + 1), Digit);
    } else {
      assert k <= m + d;
    }
  }

  lemma NumberLenIsLongest(text: string, i: nat)
    requires i <= |text|
    ensures IsLongestMatch(Number, text, i, NumberLen(text, i))
  {
    NumberLenMatches(text, i);
    forall k: nat | Matches(Number, text, i, k) ensures k <= NumberLen(text, i) {
      if SignedDigits(text, i, k) && Boundary(text, i + k) {
        SignedDigitsAtBoundaryIsLongest(text, i, k);
      } else {
        SignedDigitsAnyDigitsIsLongest(text, i, k);
      }
    }
  }

  lemma FunctionNameLenIsLongest(text: string, i: nat)
    requires i <= |text|
    ensures IsLongestMatch(FunctionName, text, i, FunctionNameLen(text, i))
  {
    RunLengthSpec(text, i, WordChar);
    forall k: nat | Matches(FunctionName, text, i, k) ensures k <= FunctionNameLen(text, i) {
      RunLengthIsMaximal(text, i, k, WordChar);
    }
  }

  lemma InfixOperatorLenIsLongest(text: string, i: nat)
    requires i <= |text|
    ensures IsLongestMatch(InfixOperator, text, i, InfixOperatorLen(text, i))
  {
    var r := RunLength(text, i, OperatorChar);
    RunLengthSpec(text, i, OperatorChar);
    NoBoundaryWithinRun(text, i, i + r, OperatorChar);
    forall k: nat | Matches(InfixOperator, text, i, k) ensures k <= InfixOperatorLen(text, i) {
      RunLengthIsMaximal(text, i, k, OperatorChar);
    }
  }

  lemma DynamicFunctionNameLenIsLongest(text: string, i: nat)
    requires i <= |text|
    ensures IsLongestMatch(DynamicFunctionName, text, i, DynamicFunctionNameLen(text, i))
  {
    RunLengthSpec(text, i, WordChar);
    forall k: nat | Matches(DynamicFunctionName, text, i, k) ensures k <= DynamicFunctionNameLen(text, i) {
      RunLengthIsMaximal(text, i, k - 1, WordChar);
    }
  }

  lemma QuotationLenIsLongest(text: string, i: nat)
    ensures IsLongestMatch(Quotation, text, i, QuotationLen(text, i))
  {
    LastIndexOfSpec(text, '"');
  }

  lemma LineCommentLenIsLongest(text: string, i: nat)
    ensures IsLongestMatch(LineComment, text, i, LineCommentLen(text, i))
  {
    if i + 2 <= |text| {
      RunLengthSpec(text, i + 2, NotNewline);
    }
    forall k: nat | Matches(LineComment, text, i, k) ensures k <= LineCommentLen(text, i) {
      RunLengthIsMaximal(text, i + 2, k - 2, NotNewline);
    }
  }

  // ---------------------------------------------------------------------------
  // The engine's two queries

  /** `matchedLength()` after a search that stopped at `i`: the length of the
      match of `p` starting at `i`, or -1 when none starts there. */
  function MatchAt(p: Pattern, text: string, i: nat): int
    requires WellFormed(p)
  {
    if i > |text| then -1
    else
      match p
      case Word(kw) => WordLen(kw, text, i)
      case Number => NumberLen(text, i)
      case FunctionName => FunctionNameLen(text, i)
      case InfixOperator => InfixOperatorLen(text, i)
      case DynamicFunctionName => DynamicFunctionNameLen(text, i)
      case Quotation => QuotationLen(text, i)
      case LineComment => LineCommentLen(text, i)
  }

  /** The matcher is right: at every offset it finds the longest match of the
      pattern, and reports -1 exactly when the pattern does not match there. */
  lemma MatchAtIsLongest(p: Pattern, text: string, i: nat)
    requires WellFormed(p)
    ensures IsLongestMatch(p, text, i, MatchAt(p, text, i))
  {
    if i <= |text| {
      match p
      case Word(kw) => WordLenIsLongest(kw, text, i);
      case Number => NumberLenIsLongest(text, i);
      case FunctionName => FunctionNameLenIsLongest(text, i);
      case InfixOperator => InfixOperatorLenIsLongest(text, i);
      case DynamicFunctionName => DynamicFunctionNameLenIsLongest(text, i);
      case Quotation => QuotationLenIsLongest(text, i);
      case LineComment => LineCommentLenIsLongest(text, i);
    }
  }

  /** Whatever the matcher reports is -1 or a non-empty match inside the line. */
  lemma MatchAtBounded(p: Pattern, text: string)
    requires WellFormed(p)
    ensures forall i: nat :: MatchAt(p, text, i) == -1 || (1 <= MatchAt(p, text, i) && i + MatchAt(p, text, i) <= |text|)
  {
    forall i: nat ensures MatchAt(p, text, i) == -1 || (1 <= MatchAt(p, text, i) && i + MatchAt(p, text, i) <= |text|) {
      MatchAtIsLongest(p, text, i);
    }
  }

  /** What the engine finds at every offset of the line. */
  function MatchTable(p: Pattern, text: string): (t: seq<int>)
    requires WellFormed(p)
    ensures |t| == |text| && Scan.IsMatchTable(t)
  {
    MatchAtBounded(p, text);
    seq(|text|, k requires 0 <= k < |text| => MatchAt(p, text, k))
  }

  /** The search behind `indexIn(text, from)`: the first offset at or after `from` where a match
      starts, or -1. */
  function Search(p: Pattern, text: string, from: nat): (r: int)
    requires WellFormed(p)
    ensures r == -1 || (from <= r < |text| && MatchAt(p, text, r) >= 1)
    ensures forall k :: from <= k < |text| && (r == -1 || k < r) ==> MatchAt(p, text, k) == -1
    decreases |text| - from
  {
    if from >= |text| then -1
    else if MatchAt(p, text, from) >= 1 then from
    else
      MatchAtIsLongest(p, text, from);
      Search(p, text, from + 1)
  }

  /** The search is the first entry of the match table from `from` on. */
  lemma {:induction false} SearchIsFirstMatch(p: Pattern, text: string, from: nat)
    requires WellFormed(p)
    ensures Search(p, text, from) == Scan.FirstMatch(MatchTable(p, text), from)
    decreases |text| - from
  {
    if from < |text| && MatchAt(p, text, from) < 1 {
      SearchIsFirstMatch(p, text, from + 1);
    }
  }

  /** A compiled expression as the rule loop uses it: `indexIn` searches and
      remembers the length of the match it found, which `matchedLength()` then
      reads (-1 after a search that found nothing). */
  class RegExp {
    const pattern: Pattern
    var matchedLength: int

    constructor (p: Pattern)
      requires WellFormed(p)
      ensures pattern == p && matchedLength == -1
    {
      pattern := p;
      matchedLength := -1;
    }

    /** `indexIn(text, from)`: the first match at or after `from`, as the match
        table of the line lists it, and its length. */
    method IndexIn(text: string, from: nat) returns (index: int)
      requires WellFormed(pattern)
      modifies this
      ensures index == Scan.FirstMatch(MatchTable(pattern, text), from)
      ensures matchedLength == if index == -1 then -1 else MatchTable(pattern, text)[index]
    {
      index := Search(pattern, text, from);
      SearchIsFirstMatch(pattern, text, from);
      matchedLength := if index == -1 then -1 else MatchAt(pattern, text, index);
    }
  }

  /** Every entry of the match table is what the engine answers at that offset. */
  lemma MatchTableIsLongest(p: Pattern, text: string, k: nat)
    requires WellFormed(p) && k < |text|
    ensures IsLongestMatch(p, text, k, MatchTable(p, text)[k])
  {
    MatchAtIsLongest(p, text, k);
  }

  /** `,` lies in the operator range `+`..`/`, and an operator needs word
      characters on both sides: `a,b` and `a+b` hold one, `a + b` none. */
  lemma InfixOperatorQuirks()
    ensures MatchAt(InfixOperator, "a,b", 1) == 1
    ensures MatchAt(InfixOperator, "a+b", 1) == 1 && MatchAt(InfixOperator, "a + b", 2) == -1
  {
    assert Boundary("a,b", 1) && Boundary("a,b", 2);
    assert Boundary("a+b", 1) && Boundary("a+b", 2) && !Boundary("a + b", 2);
  }

  /** The numeric `.` takes any character: in `f(1)` the constant is `1)`. */
  lemma NumberDotQuirk()
    ensures MatchAt(Number, "f(1)", 2) == 2
  {
    MatchAtIsLongest(Number, "f(1)", 2);
    assert Boundary("f(1)", 2);
    assert SignedDigitsAnyDigits("f(1)", 2, 2) by {
      assert SignedDigits("f(1)", 2, 1);
    }
    assert Matches(Number, "f(1)", 2, 2);
  }

  /** The string pattern runs to the last quote of the line, over what lies
      between two strings. */
  lemma QuotationGreedyQuirk()
    ensures MatchAt(Quotation, "\"a\"+\"b\"", 0) == 7
  {
    MatchAtIsLongest(Quotation, "\"a\"+\"b\"", 0);
    assert Matches(Quotation, "\"a\"+\"b\"", 0, 7);
  }

  /** `foo!(` is a dynamic function name and not a function name. */
  lemma DynamicFunctionQuirk()
    ensures MatchAt(DynamicFunctionName, "foo!(1)", 0) == 4 && MatchAt(FunctionName, "foo!(1)", 0) == -1
  {
    MatchAtIsLongest(DynamicFunctionName, "foo!(1)", 0);
    assert Matches(DynamicFunctionName, "foo!(1)", 0, 4);
    MatchAtIsLongest(FunctionName, "foo!(1)", 0);
  }
}
