/** Character classes and word boundaries as the highlighter's patterns see them. */
module Text {

  /** The character classes that occur in the highlighting patterns. */
  datatype CharClass =
    | WordChar      // [A-Za-z0-9_], and what `\b` separates
    | Digit         // [0-9]
    | OperatorChar  // the bracket class of the infix-operator pattern
    | NotNewline    // [^\n]

  predicate IsWordChar(c: char) {
    ('a' <= c <= 'z') || ('A' <= c <= 'Z') || ('0' <= c <= '9') || c == '_'
  }

  predicate IsDigit(c: char) {
    '0' <= c <= '9'
  }

  /** `[\\=\^\$\?\|\*\+-/<>@]`: the escaped `\+` opens the range `+`..`/`, which
      also takes in `,` and `.`. */
  predicate IsOperatorChar(c: char) {
    c == '\\' || c == '=' || c == '^' || c == '$' || c == '?' || c == '|' || c == '*'
    || ('+' <= c <= '/') || c == '<' || c == '>' || c == '@'
  }

  predicate InClass(c: char, cls: CharClass) {
    match cls
    case WordChar => IsWordChar(c)
    case Digit => IsDigit(c)
    case OperatorChar => IsOperatorChar(c)
    case NotNewline => c != '\n'
  }

  /** Every character of `text[lo..hi]` belongs to `cls`. */
  predicate AllInRange(text: string, lo: nat, hi: nat, cls: CharClass)
    requires hi <= |text|
  {
    forall j :: lo <= j < hi ==> InClass(text[j], cls)
  }

  /** `\b` at offset `i`: exactly one of the characters on either side is a word
      character (the outside of the line counts as a non-word character). */
  predicate Boundary(text: string, i: nat) {
    (0 < i <= |text| && IsWordChar(text[i - 1])) != (i < |text| && IsWordChar(text[i]))
  }

  /** The length of the run of `cls` characters starting at `i`. */
  function RunLength(text: string, i: nat, cls: CharClass): nat
    decreases |text| - i
  {
    if i >= |text| || !InClass(text[i], cls) then 0 else 1 + RunLength(text, i + 1, cls)
  }

  /** `RunLength` measures the longest run: it stays in the line, every character
      it counts is in the class, and the character after it is not. */
  lemma {:induction false} RunLengthSpec(text: string, i: nat, cls: CharClass)
    requires i <= |text|
    ensures var k := RunLength(text, i, cls);
      && i + k <= |text|
      && AllInRange(text, i, i + k, cls)
      && (i + k == |text| || !InClass(text[i + k], cls))
    decreases |text| - i
  {
    if i < |text| && InClass(text[i], cls) {
      RunLengthSpec(text, i + 1, cls);
    }
  }

  /** No run of `cls` characters starting at `i` is longer than `RunLength`. */
  lemma RunLengthIsMaximal(text: string, i: nat, n: nat, cls: CharClass)
    requires i + n <= |text|
    requires AllInRange(text, i, i + n, cls)
    ensures n <= RunLength(text, i, cls)
    decreases n
  {
    if n > 0 {
      RunLengthIsMaximal(text, i + 1, n - 1, cls);
    }
  }

  /** Inside a run of word characters, or of operator characters, there is no `\b`. */
  lemma NoBoundaryWithinRun(text: string, lo: nat, hi: nat, cls: CharClass)
    requires hi <= |text|
    requires cls != NotNewline
    requires AllInRange(text, lo, hi, cls)
    ensures forall j :: lo < j < hi ==> !Boundary(text, j)
  {
    forall j | lo < j < hi ensures !Boundary(text, j) {
      assert InClass(text[j - 1], cls) && InClass(text[j], cls);
      if cls == OperatorChar {
        OperatorCharIsNotWordChar(text[j - 1]);
        OperatorCharIsNotWordChar(text[j]);
      }
    }
  }

  /** No operator character is a word character, so `\b` next to one looks at the
      other side only. */
  lemma OperatorCharIsNotWordChar(c: char)
    requires IsOperatorChar(c)
    ensures !IsWordChar(c)
  {
  }

  /** The offset of the last `c` in `text`, or -1. */
  function LastIndexOf(text: string, c: char): int {
    if |text| == 0 then -1
    else if text[|text| - 1] == c then |text| - 1
    else LastIndexOf(text[..|text| - 1], c)
  }

  /** `LastIndexOf` finds the last occurrence: -1 when there is none, and no `c`
      comes after the offset it returns. */
  lemma {:induction false} LastIndexOfSpec(text: string, c: char)
    ensures var r := LastIndexOf(text, c);
      && -1 <= r < |text| && (r >= 0 ==> text[r] == c)
      && forall j :: r < j < |text| ==> text[j] != c
  {
    if |text| > 0 && text[|text| - 1] != c {
      LastIndexOfSpec(text[..|text| - 1], c);
    }
  }

  /** `lit` occurs in `text` at offset `i`. */
  predicate OccursAt(text: string, lit: string, i: int) {
    0 <= i && i + |lit| <= |text| && text[i..i + |lit|] == lit
  }

  /** A search for a fixed string: the first offset at or after `from` where `lit`
      occurs, or -1. */
  function IndexOf(text: string, lit: string, from: nat): (r: int)
    ensures r == -1 || (from <= r && r + |lit| <= |text|)
    decreases |text| - from
  {
    if from + |lit| > |text| then -1
    else if text[from..from + |lit|] == lit then from
    else IndexOf(text, lit, from + 1)
  }

  /** `IndexOf` finds the first occurrence: what it returns is an occurrence at or
      after `from`, and none comes before it (or at all, when it returns -1). */
  lemma {:induction false} IndexOfSpec(text: string, lit: string, from: nat)
    ensures var r := IndexOf(text, lit, from);
      && (r == -1 || (from <= r && OccursAt(text, lit, r)))
      && forall j :: from <= j && (r == -1 || j < r) ==> !OccursAt(text, lit, j)
    decreases |text| - from
  {
    if from + |lit| <= |text| && text[from..from + |lit|] != lit {
      IndexOfSpec(text, lit, from + 1);
    }
  }
}
