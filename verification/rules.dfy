/** The ordered rule table and the first phase of `highlightBlock`: every rule, in
    table order, stamps every match it finds, each search resuming where the
    previous match ended. */
module Rules {
  import opened Patterns
  import opened Format
  import Scan

  datatype Rule = Rule(pattern: Pattern, style: Style)

  /** The sixteen keywords, in the order the constructor lists them. */
  const Keywords: seq<string> :=
    ["if", "else", "for", "while", "do", "break", "continue", "return",
     "int", "double", "bool", "void", "string", "infix", "true", "false"]

  function KeywordRules(kws: seq<string>): (rs: seq<Rule>)
    ensures |rs| == |kws|
    ensures forall k :: 0 <= k < |kws| ==> rs[k] == Rule(Word(kws[k]), Keyword)
  {
    if kws == [] then [] else KeywordRules(kws[..|kws| - 1]) + [Rule(Word(kws[|kws| - 1]), Keyword)]
  }

  /** The six rules that follow the keywords, in table order. */
  const OtherRules: seq<Rule> :=
    [Rule(Number, NumericConstant), Rule(FunctionName, Function),
     Rule(Patterns.InfixOperator, Format.InfixOperator),
     Rule(DynamicFunctionName, DynamicFunction),
     Rule(Patterns.Quotation, Format.Quotation), Rule(Patterns.LineComment, Format.LineComment)]

  /** `highlightingRules` as the constructor leaves it. */
  function RuleTable(): seq<Rule> {
    KeywordRules(Keywords) + OtherRules
  }

  predicate AllWellFormed(rules: seq<Rule>) {
    forall k :: 0 <= k < |rules| ==> WellFormed(rules[k].pattern)
  }

  /** The ranges the loop of one rule stamps over the whole line. */
  function RuleRanges(rule: Rule, text: string): seq<FormatRange>
    requires WellFormed(rule.pattern)
  {
    var t := MatchTable(rule.pattern, text);
    Scan.Ranges(t, Scan.FirstMatch(t, 0), rule.style)
  }

  /** Each range one rule stamps lies in the line, carries the rule's style and is
      the longest match of the rule's pattern at its start, so it is never empty. */
  lemma RuleRangesAreMatches(rule: Rule, text: string)
    requires WellFormed(rule.pattern)
    ensures var rs := RuleRanges(rule, text);
      var t := MatchTable(rule.pattern, text);
      forall k :: 0 <= k < |rs| ==>
        && rs[k].style == rule.style && 0 <= rs[k].start && End(rs[k]) <= |text|
        && 1 <= rs[k].length == t[rs[k].start]
  {
    var t := MatchTable(rule.pattern, text);
    var rs := RuleRanges(rule, text);
    Scan.RangesAreMatches(t, Scan.FirstMatch(t, 0), rule.style);
    forall k | 0 <= k < |rs| ensures rs[k] in rs {}
  }

  /** The ranges one rule stamps are its successive leftmost matches: each starts at
      or after the end of the one before, and no match starts before the first,
      between two of them, or after the last. */
  lemma RuleRangesAreSuccessive(rule: Rule, text: string)
    requires WellFormed(rule.pattern)
    ensures var rs := RuleRanges(rule, text);
      var t := MatchTable(rule.pattern, text);
      && (forall k :: 0 <= k < |rs| - 1 ==> End(rs[k]) <= rs[k + 1].start)
      && Scan.NoMatchIn(t, 0, if rs == [] then |text| else rs[0].start)
      && (forall k :: 0 <= k < |rs| - 1 ==> Scan.NoMatchIn(t, End(rs[k]), rs[k + 1].start))
      && (rs != [] ==> Scan.NoMatchIn(t, End(rs[|rs| - 1]), |text|))
  {
    var t := MatchTable(rule.pattern, text);
    var index := Scan.FirstMatch(t, 0);
    var rs := Scan.Ranges(t, index, rule.style);
    Scan.RangesConsecutive(t, index, rule.style);
    Scan.RangesReachLastMatch(t, index, rule.style);
    assert rs != [] ==> rs[0].start == index;
  }

  /** Everything the rule phase stamps, rule after rule in table order. */
  function AllRuleRanges(rules: seq<Rule>, text: string): seq<FormatRange>
    requires AllWellFormed(rules)
  {
    if rules == [] then []
    else
      AllRuleRanges(rules[..|rules| - 1], text) + RuleRanges(rules[|rules| - 1], text)
  }

  /** The rules up to `r`, then rule `r`: table order is application order. */
  lemma AllRuleRangesStep(rules: seq<Rule>, r: nat, text: string)
    requires AllWellFormed(rules) && r < |rules|
    ensures AllWellFormed(rules[..r]) && AllWellFormed(rules[..r + 1])
    ensures AllRuleRanges(rules[..r + 1], text) == AllRuleRanges(rules[..r], text) + RuleRanges(rules[r], text)
  {
    assert rules[..r + 1][..r] == rules[..r];
  }

  /** The line as the rule phase leaves it. */
  function RuleStyles(rules: seq<Rule>, text: string): seq<Style>
    requires AllWellFormed(rules)
  {
    Paint(Unformatted(|text|), AllRuleRanges(rules, text))
  }

  /** A later rule overrides: after adding `rule` at the end of the table, an
      offset takes the rule's style exactly when one of its matches reaches it,
      and otherwise keeps what the earlier rules gave it. */
  lemma LaterRuleOverrides(rules: seq<Rule>, rule: Rule, text: string, x: nat)
    requires AllWellFormed(rules) && WellFormed(rule.pattern) && x < |text|
    ensures AllWellFormed(rules + [rule])
    ensures var rs := RuleRanges(rule, text);
      RuleStyles(rules + [rule], text)[x] ==
        if exists k :: 0 <= k < |rs| && Covers(rs[k], x) then rule.style else RuleStyles(rules, text)[x]
  {
    var all := rules + [rule];
    assert all[..|all| - 1] == rules;
    assert AllWellFormed(all) by {
      forall k | 0 <= k < |all| ensures WellFormed(all[k].pattern) {
        if k < |rules| { assert all[k] == rules[k]; }
      }
    }
    var rs := RuleRanges(rule, text);
    assert AllRuleRanges(all, text) == AllRuleRanges(rules, text) + rs;
    PaintAppend(Unformatted(|text|), AllRuleRanges(rules, text), rs);
    var before := RuleStyles(rules, text);
    assert RuleStyles(all, text) == Paint(before, rs);
    var t := MatchTable(rule.pattern, text);
    var index := Scan.FirstMatch(t, 0);
    if k :| 0 <= k < |rs| && Covers(rs[k], x) {
      forall i | k < i < |rs| ensures !Covers(rs[i], x) {
        Scan.RangesDisjoint(t, index, rule.style, k, i, x);
      }
      PaintCovered(before, rs, k, x);
      Scan.RangesAreMatches(t, index, rule.style);
      assert rs[k] in rs;
    } else {
      PaintUncovered(before, rs, x);
    }
  }

  /** A style that no rule carries is never stamped by the rule phase. */
  lemma {:induction false} AllRuleRangesAvoid(rules: seq<Rule>, text: string, avoid: Style)
    requires AllWellFormed(rules)
    requires forall k :: 0 <= k < |rules| ==> rules[k].style != avoid
    ensures forall i :: 0 <= i < |AllRuleRanges(rules, text)| ==> AllRuleRanges(rules, text)[i].style != avoid
  {
    if rules != [] {
      var init := rules[..|rules| - 1];
      var last := rules[|rules| - 1];
      assert AllWellFormed(init) by {
        forall k | 0 <= k < |init| ensures WellFormed(init[k].pattern) { assert init[k] == rules[k]; }
      }
      AllRuleRangesAvoid(init, text, avoid);
      RuleRangesAreMatches(last, text);
    }
  }

  /** The rule phase leaves every offset plain or in the style of some rule. */
  lemma RuleStylesAvoid(rules: seq<Rule>, text: string, avoid: Style, x: nat)
    requires AllWellFormed(rules) && x < |text| && avoid != Plain
    requires forall k :: 0 <= k < |rules| ==> rules[k].style != avoid
    ensures RuleStyles(rules, text)[x] != avoid
  {
    AllRuleRangesAvoid(rules, text, avoid);
    PaintLastWins(Unformatted(|text|), AllRuleRanges(rules, text), x);
  }

  /** An offset that no rule's match reaches stays unformatted. */
  lemma {:induction false} UnmatchedStaysPlain(rules: seq<Rule>, text: string, x: nat)
    requires AllWellFormed(rules) && x < |text|
    requires forall i :: 0 <= i < |AllRuleRanges(rules, text)| ==> !Covers(AllRuleRanges(rules, text)[i], x)
    ensures RuleStyles(rules, text)[x] == Plain
  {
    PaintUncovered(Unformatted(|text|), AllRuleRanges(rules, text), x);
  }

  /** Every rule of the table is well formed, so the table can be searched. */
  lemma RuleTableWellFormed()
    ensures AllWellFormed(RuleTable())
    ensures |RuleTable()| == 22
  {
    var kr := KeywordRules(Keywords);
    assert forall k :: 0 <= k < |Keywords| ==> |Keywords[k]| >= 1;
    assert forall k :: 0 <= k < |kr| ==> WellFormed(kr[k].pattern);
  }

  /** The table holds the sixteen keyword rules, then the six others, in the order
      the constructor appends them; no rule formats as plain text or as a block
      comment. */
  lemma RuleTableOrder()
    ensures |RuleTable()| == 22
    ensures forall k :: 0 <= k < 16 ==> RuleTable()[k] == Rule(Word(Keywords[k]), Keyword)
    ensures RuleTable()[16..] == OtherRules
    ensures forall k :: 0 <= k < 22 ==> RuleTable()[k].style != MultiLineComment && RuleTable()[k].style != Plain
  {
  }

  /** Keywords match whole words only: `integer` holds no `int`, `int x` holds one. */
  lemma KeywordIsWholeWord()
    ensures Search(Word("int"), "integer", 0) == -1
    ensures Search(Word("int"), "int x", 0) == 0 && MatchAt(Word("int"), "int x", 0) == 3
    ensures Search(Word("int"), "int x", 3) == -1
  {
    assert !Text.Boundary("integer", 3);
    assert Text.Boundary("int x", 3);
  }
}
