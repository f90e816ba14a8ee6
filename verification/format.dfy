/** Styles and the per-line format buffer: a line's formatting is the result of a
    sequence of `setFormat(start, count, style)` calls applied in order. */
module Format {

  /** The character formats of the highlighter, reduced to tags. */
  datatype Style =
    | Plain             // no rule applied
    | Keyword           // keywordFormat
    | NumericConstant   // numericConstantFormat
    | Function          // functionFormat
    | InfixOperator     // infixOperatorFormat
    | DynamicFunction   // dynamicFunctionFormat
    | Quotation         // quotationFormat
    | LineComment       // singleLineCommentFormat
    | MultiLineComment  // multiLineCommentFormat

  /** One `setFormat(start, length, style)` call. */
  datatype FormatRange = FormatRange(start: int, length: int, style: Style)

  function End(r: FormatRange): int {
    r.start + r.length
  }

  /** `setFormat` reaches offset `k`: a negative start is ignored altogether, and
      the range is clipped at the end of the buffer. */
  predicate Covers(r: FormatRange, k: int) {
    0 <= r.start <= k < End(r)
  }

  /** A line before any rule is applied. */
  function Unformatted(n: nat): (s: seq<Style>)
    ensures |s| == n && forall k :: 0 <= k < n ==> s[k] == Plain
  {
    seq(n, _ => Plain)
  }

  /** The buffer after one `setFormat` call. */
  function Stamp(s: seq<Style>, r: FormatRange): seq<Style> {
    seq(|s|, k requires 0 <= k < |s| => if Covers(r, k) then r.style else s[k])
  }

  /** The buffer after the calls `rs`, in order. */
  function Paint(s: seq<Style>, rs: seq<FormatRange>): (t: seq<Style>)
    ensures |t| == |s|
  {
    if rs == [] then s else Stamp(Paint(s, rs[..|rs| - 1]), rs[|rs| - 1])
  }

  /** The index of the last range in `rs` that reaches `k`, or -1. */
  function LastCover(rs: seq<FormatRange>, k: int): (j: int)
    ensures -1 <= j < |rs|
    ensures j >= 0 ==> Covers(rs[j], k)
    ensures forall i :: j < i < |rs| ==> !Covers(rs[i], k)
  {
    if rs == [] then -1
    else if Covers(rs[|rs| - 1], k) then |rs| - 1
    else LastCover(rs[..|rs| - 1], k)
  }

  /** Later calls win: each offset ends with the style of the last range that
      reaches it, and keeps its old style when none does. */
  lemma {:induction false} PaintLastWins(s: seq<Style>, rs: seq<FormatRange>, k: nat)
    requires k < |s|
    ensures Paint(s, rs)[k] == if LastCover(rs, k) == -1 then s[k] else rs[LastCover(rs, k)].style
  {
    if rs != [] {
      PaintLastWins(s, rs[..|rs| - 1], k);
    }
  }

  /** Applying `a` and then `b` is applying `a + b`. */
  lemma {:induction false} PaintAppend(s: seq<Style>, a: seq<FormatRange>, b: seq<FormatRange>)
    ensures Paint(s, a + b) == Paint(Paint(s, a), b)
    decreases |b|
  {
    if b == [] {
      assert a + b == a;
    } else {
      assert (a + b)[..|a + b| - 1] == a + b[..|b| - 1];
      PaintAppend(s, a, b[..|b| - 1]);
    }
  }

  /** A range that reaches `k` and is followed by none that does decides its style. */
  lemma PaintCovered(s: seq<Style>, rs: seq<FormatRange>, j: nat, k: nat)
    requires k < |s| && j < |rs| && Covers(rs[j], k)
    requires forall i :: j < i < |rs| ==> !Covers(rs[i], k)
    ensures Paint(s, rs)[k] == rs[j].style
  {
    PaintLastWins(s, rs, k);
  }

  /** An offset that no range reaches keeps its style. */
  lemma PaintUncovered(s: seq<Style>, rs: seq<FormatRange>, k: nat)
    requires k < |s|
    requires forall i :: 0 <= i < |rs| ==> !Covers(rs[i], k)
    ensures Paint(s, rs)[k] == s[k]
  {
    PaintLastWins(s, rs, k);
  }
}
