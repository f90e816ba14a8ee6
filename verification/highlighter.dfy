/** The highlighter object: its rule list, the format buffer of the line being
    highlighted, and the block states, with the constructor that fills the rule
    list and `highlightBlock` as two loops that stamp the buffer in place. */
module Highlighter {
  import opened Text
  import opened Patterns
  import opened Format
  import Scan
  import opened Rules
  import opened Comments

  /** The styles a line ends with under a rule list: the rule phase, then the
      comment phase over it. */
  function LineStyles(rules: seq<Rule>, text: string, previous: int): (s: seq<Style>)
    requires AllWellFormed(rules)
    ensures |s| == |text|
  {
    Paint(RuleStyles(rules, text), CommentScanOf(text, previous).ranges)
  }

  /** What highlighting one line with the rule table amounts to: the style of every
      offset, and the state handed to the next line. */
  datatype LineResult = LineResult(styles: seq<Style>, state: int)

  function HighlightLine(text: string, previous: int): (r: LineResult)
    ensures |r.styles| == |text|
  {
    RuleTableWellFormed();
    LineResult(LineStyles(RuleTable(), text, previous), CommentScanOf(text, previous).exit)
  }

  class CppHighlighter {
    /** `highlightingRules`, in the order they are applied. */
    var highlightingRules: seq<Rule>
    /** The formats of the block being highlighted, one per character. */
    var format: array<Style>
    /** `previousBlockState()`: the state the line before this one handed on. */
    var previousState: int
    /** `currentBlockState()`: the state this line hands on. */
    var currentState: int

    /** Every rule can be searched: none matches the empty string. */
    predicate Valid()
      reads this
    {
      AllWellFormed(highlightingRules)
    }

    /** The keyword rules are appended one by one, then the six other rules. A block
        that was never highlighted has state -1. */
    constructor ()
      ensures Valid() && highlightingRules == RuleTable()
      ensures format.Length == 0 && previousState == -1 && currentState == -1
    {
      format := new Style[0];
      previousState := -1;
      currentState := -1;
      highlightingRules := [];
      new;
      var k := 0;
      while k < |Keywords|
        invariant 0 <= k <= |Keywords|
        invariant highlightingRules == KeywordRules(Keywords[..k])
        invariant format.Length == 0 && previousState == -1 && currentState == -1
      {
        assert Keywords[..k + 1][..k] == Keywords[..k];
        highlightingRules := highlightingRules + [Rule(Word(Keywords[k]), Keyword)];
        k := k + 1;
      }
      assert Keywords[..k] == Keywords;
      ghost var keywordRules := highlightingRules;
      highlightingRules := highlightingRules + [Rule(Number, NumericConstant)];
      highlightingRules := highlightingRules + [Rule(FunctionName, Function)];
      highlightingRules := highlightingRules + [Rule(Patterns.InfixOperator, Format.InfixOperator)];
      highlightingRules := highlightingRules + [Rule(DynamicFunctionName, DynamicFunction)];
      highlightingRules := highlightingRules + [Rule(Patterns.Quotation, Format.Quotation)];
      highlightingRules := highlightingRules + [Rule(Patterns.LineComment, Format.LineComment)];
      assert highlightingRules == keywordRules + OtherRules;
      RuleTableWellFormed();
    }

    /** The framework's preparation of a block: a buffer of plain formats as long
        as the line, and the state the previous block handed on. */
    method BeginBlock(text: string, previous: int)
      modifies this
      ensures fresh(format) && format[..] == Unformatted(|text|)
      ensures previousState == previous
      ensures highlightingRules == old(highlightingRules) && currentState == old(currentState)
    {
      format := new Style[|text|](_ => Plain);
      previousState := previous;
    }

    /** The framework's call for one block: prepare it, then `highlightBlock`. */
    method Highlight(text: string, previous: int)
      requires Valid()
      modifies this
      ensures highlightingRules == old(highlightingRules) && Valid() && fresh(format)
      ensures format[..] == LineStyles(highlightingRules, text, previous)
      ensures currentState == CommentScanOf(text, previous).exit
    {
      BeginBlock(text, previous);
      HighlightBlock(text);
    }

    /** `setFormat(start, count, style)`: a start outside the buffer is ignored,
        and the range is cut at the end of the buffer. */
    method SetFormat(start: int, count: int, style: Style)
      modifies format
      ensures format[..] == Stamp(old(format[..]), FormatRange(start, count, style))
    {
      if start < 0 || start >= format.Length {
        return;
      }
      var end := if start + count < format.Length then start + count else format.Length;
      var i := start;
      while i < end
        invariant start <= i <= format.Length
        invariant i <= end || i == start
        invariant forall k :: 0 <= k < format.Length ==>
          format[k] == if start <= k < i then style else old(format[k])
      {
        format[i] := style;
        i := i + 1;
      }
    }

    /** `highlightBlock(text)`: every rule stamps each of its matches in turn,
        then the comment machine stamps its regions over them and records the
        state the line hands on. The rule phase never reads the block states. */
    method HighlightBlock(text: string)
      requires Valid() && format.Length == |text|
      modifies format, this`currentState
      ensures format[..] == Paint(Paint(old(format[..]), AllRuleRanges(highlightingRules, text)),
                                  CommentScanOf(text, previousState).ranges)
      ensures currentState == CommentScanOf(text, previousState).exit
    {
      var r := 0;
      while r < |highlightingRules|
        invariant 0 <= r <= |highlightingRules|
        invariant format[..] == Paint(old(format[..]), AllRuleRanges(highlightingRules[..r], text))
      {
        AllRuleRangesStep(highlightingRules, r, text);
        PaintAppend(old(format[..]), AllRuleRanges(highlightingRules[..r], text), RuleRanges(highlightingRules[r], text));
        ApplyRule(highlightingRules[r], text);
        r := r + 1;
      }
      assert highlightingRules[..r] == highlightingRules;
      MarkComments(text);
    }

    /** The loop of one rule: search from the start of the line, stamp the match
        found, and search again from its end. */
    method ApplyRule(rule: Rule, text: string)
      requires WellFormed(rule.pattern) && format.Length == |text|
      modifies format
      ensures format[..] == Paint(old(format[..]), RuleRanges(rule, text))
    {
      ghost var t := MatchTable(rule.pattern, text);
      ghost var goal := Paint(old(format[..]), RuleRanges(rule, text));
      var expression := new RegExp(rule.pattern);
      var index := expression.IndexIn(text, 0);
      while index >= 0
        invariant Scan.IsFound(t, index)
        invariant index >= 0 ==> expression.matchedLength == t[index]
        invariant Paint(format[..], Scan.Ranges(t, index, rule.style)) == goal
        decreases if index < 0 then 0 else |text| + 1 - index
      {
        var length := expression.matchedLength;
        ghost var before := format[..];
        SetFormat(index, length, rule.style);
        ghost var after := format[..];
        RuleStep(before, after, t, index, rule.style, goal);
        ghost var next := Scan.FirstMatch(t, index + t[index]);
        index := expression.IndexIn(text, index + length);
        assert index == next;
        assert format[..] == after;
      }
    }

    /** The comment machine: the line leaves in state 0 unless a region finds no
        terminator; the first region starts at offset 0 when the previous line
        left state 1, and at the first opener otherwise. */
    method MarkComments(text: string)
      requires format.Length == |text|
      modifies format, this`currentState
      ensures format[..] == Paint(old(format[..]), CommentScanOf(text, previousState).ranges)
      ensures currentState == CommentScanOf(text, previousState).exit
    {
      ghost var comments := CommentScanOf(text, previousState);
      currentState := 0;
      var startIndex := 0;
      if previousState != 1 {
        startIndex := IndexOf(text, CommentStart, 0);
      }
      while startIndex >= 0
        invariant -1 <= startIndex <= |text|
        invariant currentState == 0 || currentState == 1
        invariant Paint(format[..], CommentsFrom(text, startIndex).ranges) == Paint(old(format[..]), comments.ranges)
        invariant (if currentState == 1 then 1 else CommentsFrom(text, startIndex).exit) == comments.exit
        decreases if startIndex < 0 then 0 else |text| + 1 - startIndex
      {
        var endIndex := IndexOf(text, CommentEnd, startIndex);
        var commentLength;
        if endIndex == -1 {
          currentState := 1;
          commentLength := |text| - startIndex;
        } else {
          commentLength := endIndex - startIndex + |CommentEnd|;
        }
        ghost var next := IndexOf(text, CommentStart, startIndex + commentLength);
        CommentsStep(text, startIndex, endIndex, commentLength, next);
        ghost var rest := CommentsFrom(text, next);
        StampThenPaint(format[..], FormatRange(startIndex, commentLength, MultiLineComment), rest.ranges);
        SetFormat(startIndex, commentLength, MultiLineComment);
        startIndex := IndexOf(text, CommentStart, startIndex + commentLength);
      }
    }
  }

  /** One turn of a rule's loop keeps what is left to paint in step with the
      buffer: stamping the match found and resuming the search after it. */
  lemma RuleStep(before: seq<Style>, after: seq<Style>, t: seq<int>, index: nat, style: Style, goal: seq<Style>)
    requires Scan.IsMatchTable(t) && Scan.IsFound(t, index)
    requires Paint(before, Scan.Ranges(t, index, style)) == goal
    requires after == Stamp(before, FormatRange(index, t[index], style))
    ensures Paint(after, Scan.Ranges(t, Scan.FirstMatch(t, index + t[index]), style)) == goal
  {
    Scan.RangesStep(t, index, style);
    StampThenPaint(before, FormatRange(index, t[index], style), Scan.Ranges(t, Scan.FirstMatch(t, index + t[index]), style));
  }

  /** Stamping one range and then painting the rest is painting them all. */
  lemma StampThenPaint(s: seq<Style>, r: FormatRange, rest: seq<FormatRange>)
    ensures Paint(s, [r] + rest) == Paint(Stamp(s, r), rest)
  {
    PaintAppend(s, [r], rest);
    assert [r][..0] == [];
  }

  /** Comment formatting comes last: an offset ends in the comment style exactly
      when a comment region reaches it, whatever the rules stamped there. */
  lemma CommentWins(text: string, previous: int, x: nat)
    requires x < |text|
    ensures var c := CommentScanOf(text, previous).ranges;
      (HighlightLine(text, previous).styles[x] == MultiLineComment)
      <==> (exists k :: 0 <= k < |c| && Covers(c[k], x))
  {
    RuleTableWellFormed();
    var c := CommentScanOf(text, previous).ranges;
    var start := EntryIndex(text, previous);
    RegionShape(text, previous);
    if k :| 0 <= k < |c| && Covers(c[k], x) {
      forall i | k < i < |c| ensures !Covers(c[i], x) {
        CommentsDisjoint(text, start, k, i, x);
      }
      PaintCovered(RuleStyles(RuleTable(), text), c, k, x);
    } else {
      PaintUncovered(RuleStyles(RuleTable(), text), c, x);
      RuleTableOrder();
      RuleStylesAvoid(RuleTable(), text, MultiLineComment, x);
    }
  }

  /** Outside the comment regions a line keeps what the rule phase gave it. */
  lemma OutsideCommentKeepsRuleStyle(text: string, previous: int, x: nat)
    requires x < |text|
    requires var c := CommentScanOf(text, previous).ranges;
      forall k :: 0 <= k < |c| ==> !Covers(c[k], x)
    ensures AllWellFormed(RuleTable()) && HighlightLine(text, previous).styles[x] == RuleStyles(RuleTable(), text)[x]
  {
    RuleTableWellFormed();
    PaintUncovered(RuleStyles(RuleTable(), text), CommentScanOf(text, previous).ranges, x);
  }

  /** Only the comment phase reads the entering state: outside the comment regions
      of both, a line looks the same whatever state it enters with, and every
      state other than 1 is the normal one. */
  lemma StateOnlyMovesComments(text: string, p: int, q: int, x: nat)
    requires x < |text|
    requires forall k :: 0 <= k < |CommentScanOf(text, p).ranges| ==> !Covers(CommentScanOf(text, p).ranges[k], x)
    requires forall k :: 0 <= k < |CommentScanOf(text, q).ranges| ==> !Covers(CommentScanOf(text, q).ranges[k], x)
    ensures HighlightLine(text, p).styles[x] == HighlightLine(text, q).styles[x]
    ensures p != 1 && q != 1 ==> HighlightLine(text, p) == HighlightLine(text, q)
  {
    OutsideCommentKeepsRuleStyle(text, p, x);
    OutsideCommentKeepsRuleStyle(text, q, x);
  }
}
