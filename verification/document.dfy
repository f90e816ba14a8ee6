/** A document as a sequence of lines, each highlighted with the state the line
    before it handed on. The hand-off itself belongs to the framework that calls
    `highlightBlock`; it is modelled here as a fold over the lines and as the
    re-highlighting loop that follows an edit, which goes on to the next line
    only while the state a line hands on has changed. */
module Document {
  import opened Format
  import opened Rules
  import opened Comments
  import opened Highlighter

  /** The state line `i` enters with: what line `i - 1` handed on, and -1 (no
      state yet) for the first line. */
  function Entering(states: seq<int>, i: nat): int
    requires i <= |states|
  {
    if i == 0 then -1 else states[i - 1]
  }

  /** The states the lines hand on when each line is highlighted after the one
      before it. */
  function ExitStates(lines: seq<string>): (s: seq<int>)
    ensures |s| == |lines|
  {
    if lines == [] then []
    else
      var init := ExitStates(lines[..|lines| - 1]);
      init + [CommentScanOf(lines[|lines| - 1], Entering(init, |init|)).exit]
  }

  /** Line `i` shows what highlighting it after the stored state of line `i - 1`
      gives, and stores the state that hands on. */
  predicate LineUpToDate(rules: seq<Rule>, lines: seq<string>, states: seq<int>, formats: seq<seq<Style>>, i: nat)
    requires AllWellFormed(rules)
    requires |states| == |lines| == |formats| && i < |lines|
  {
    StateUpToDate(lines, states, i) && formats[i] == LineStyles(rules, lines[i], Entering(states, i))
  }

  /** Line `i` stores the state that highlighting it after the stored state of
      line `i - 1` hands on. */
  predicate StateUpToDate(lines: seq<string>, states: seq<int>, i: nat)
    requires |states| == |lines| && i < |lines|
  {
    states[i] == CommentScanOf(lines[i], Entering(states, i)).exit
  }

  /** Every stored state agrees with the line before it exactly when the stored
      states are the fold over the document. */
  lemma {:induction false} UpToDateIsFold(lines: seq<string>, states: seq<int>)
    requires |states| == |lines|
    ensures (forall i :: 0 <= i < |lines| ==> StateUpToDate(lines, states, i)) <==> states == ExitStates(lines)
  {
    if lines != [] {
      var n := |lines| - 1;
      var lines' := lines[..n];
      var states' := states[..n];
      UpToDateIsFold(lines', states');
      forall i | 0 <= i < n
        ensures StateUpToDate(lines, states, i) == StateUpToDate(lines', states', i)
      {
        assert Entering(states, i) == Entering(states', i);
      }
      assert Entering(states, n) == Entering(states', n);
      var init := ExitStates(lines');
      assert ExitStates(lines) == init + [CommentScanOf(lines[n], Entering(init, n)).exit];
      if forall i :: 0 <= i < |lines| ==> StateUpToDate(lines, states, i) {
        assert forall i :: 0 <= i < n ==> StateUpToDate(lines', states', i);
        assert states' == init;
        assert StateUpToDate(lines, states, n);
        assert states == states' + [states[n]];
      }
    }
  }

  /** A line whose stored state, format and entering state did not move stays up
      to date. */
  lemma Untouched(rules: seq<Rule>, lines: seq<string>, states: seq<int>, formats: seq<seq<Style>>,
                  states': seq<int>, formats': seq<seq<Style>>, j: nat)
    requires AllWellFormed(rules)
    requires |states| == |lines| == |formats| == |states'| == |formats'| && j < |lines|
    requires LineUpToDate(rules, lines, states, formats, j)
    requires states'[j] == states[j] && formats'[j] == formats[j] && Entering(states', j) == Entering(states, j)
    ensures LineUpToDate(rules, lines, states', formats', j)
  {
  }

  /** Where the re-highlighting loop stops, the whole document is up to date: the
      lines before the stop were redone, and the rest kept their states, their
      formats and (at the stop) the state they enter with. */
  lemma Settled(rules: seq<Rule>, lines: seq<string>, states0: seq<int>, formats0: seq<seq<Style>>,
                states: seq<int>, formats: seq<seq<Style>>, changed: nat, i: nat)
    requires AllWellFormed(rules)
    requires |states0| == |formats0| == |states| == |formats| == |lines| && changed < i <= |lines|
    requires forall j :: 0 <= j < |lines| && j != changed ==> LineUpToDate(rules, lines, states0, formats0, j)
    requires Framed(states0, formats0, states, formats, changed, i)
    requires UpToDateBelow(rules, lines, states, formats, i)
    requires i < |lines| ==> states[i - 1] == states0[i - 1]
    ensures forall j :: 0 <= j < |lines| ==> LineUpToDate(rules, lines, states, formats, j)
    ensures states == ExitStates(lines)
  {
    forall j | i <= j < |lines|
      ensures LineUpToDate(rules, lines, states, formats, j)
    {
      Untouched(rules, lines, states0, formats0, states, formats, j);
    }
    forall j | 0 <= j < |lines| ensures StateUpToDate(lines, states, j) {
      assert LineUpToDate(rules, lines, states, formats, j);
    }
    UpToDateIsFold(lines, states);
  }

  /** Framing as slices: nothing before the edited line and nothing from the stop
      on has moved. */
  lemma FramedSlices(states0: seq<int>, formats0: seq<seq<Style>>, states: seq<int>, formats: seq<seq<Style>>,
                     changed: nat, i: nat)
    requires |states0| == |formats0| == |states| == |formats| && changed <= i <= |states|
    requires Framed(states0, formats0, states, formats, changed, i)
    ensures states[..changed] == states0[..changed] && formats[..changed] == formats0[..changed]
    ensures states[i..] == states0[i..] && formats[i..] == formats0[i..]
  {
  }

  /** Every line hands on 0 or 1. */
  lemma {:induction false} ExitStatesBinary(lines: seq<string>)
    ensures forall i :: 0 <= i < |lines| ==> ExitStates(lines)[i] == 0 || ExitStates(lines)[i] == 1
  {
    if lines != [] {
      var init := ExitStates(lines[..|lines| - 1]);
      ExitStatesBinary(lines[..|lines| - 1]);
      ExitState(lines[|lines| - 1], Entering(init, |init|));
    }
  }

  /** One block of the re-highlighting loop: highlight line `i` with the state
      stored for the line before it and store the state and formats it produces,
      which brings that line up to date and moves nothing else; report whether
      the stored state changed. */
  method RedoBlock(h: CppHighlighter, lines: seq<string>, states: array<int>, formats: array<seq<Style>>, i: nat)
    returns (changed: bool)
    requires h.Valid()
    requires states.Length == |lines| && formats.Length == |lines| && i < |lines|
    modifies h, states, formats
    ensures h.Valid() && h.highlightingRules == old(h.highlightingRules)
    ensures states[..] == old(states[..])[i := states[i]] && formats[..] == old(formats[..])[i := formats[i]]
    ensures LineUpToDate(h.highlightingRules, lines, states[..], formats[..], i)
    ensures changed <==> states[i] != old(states[i])
  {
    var entering := if i == 0 then -1 else states[i - 1];
    h.Highlight(lines[i], entering);
    var before := states[i];
    states[i] := h.currentState;
    formats[i] := h.format[..];
    changed := h.currentState != before;
  }

  /** The lines the re-highlighting loop has not reached yet, and those before the
      edited line, still hold what they held before it started. */
  predicate Framed(states0: seq<int>, formats0: seq<seq<Style>>, states: seq<int>, formats: seq<seq<Style>>,
                   changed: nat, i: nat)
    requires |states0| == |formats0| == |states| == |formats|
  {
    forall j :: 0 <= j < |states| && (j < changed || i <= j) ==> states[j] == states0[j] && formats[j] == formats0[j]
  }

  predicate UpToDateBelow(rules: seq<Rule>, lines: seq<string>, states: seq<int>, formats: seq<seq<Style>>, i: nat)
    requires AllWellFormed(rules)
    requires |states| == |lines| == |formats| && i <= |lines|
  {
    forall j :: 0 <= j < i ==> LineUpToDate(rules, lines, states, formats, j)
  }

  /** One turn of the re-highlighting loop: once line `i` is brought up to date
      and nothing else moved, the lines up to it are up to date, the lines after it
      are untouched, the loop stops only where the stored state did not move, and
      a line that was up to date is written back unchanged. */
  lemma RehighlightStep(rules: seq<Rule>, lines: seq<string>, states0: seq<int>, formats0: seq<seq<Style>>,
                        states: seq<int>, formats: seq<seq<Style>>, states': seq<int>, formats': seq<seq<Style>>,
                        changed: nat, i: nat, force: bool)
    requires AllWellFormed(rules)
    requires |states0| == |formats0| == |states| == |formats| == |states'| == |formats'| == |lines|
    requires changed <= i < |lines|
    requires Framed(states0, formats0, states, formats, changed, i)
    requires UpToDateBelow(rules, lines, states, formats, i)
    requires states' == states[i := states'[i]] && formats' == formats[i := formats'[i]]
    requires LineUpToDate(rules, lines, states', formats', i)
    requires force <==> states'[i] != states[i]
    ensures Framed(states0, formats0, states', formats', changed, i + 1)
    ensures UpToDateBelow(rules, lines, states', formats', i + 1)
    ensures !force ==> states'[i] == states0[i]
    ensures force ==> states'[i] != states0[i]
    ensures i == changed && states == states0 && formats == formats0 && LineUpToDate(rules, lines, states0, formats0, changed)
      ==> !force && states' == states0 && formats' == formats0
  {
    forall j | 0 <= j < i ensures LineUpToDate(rules, lines, states', formats', j) {
      Untouched(rules, lines, states, formats, states', formats', j);
    }
    if i == changed && states == states0 && formats == formats0 && LineUpToDate(rules, lines, states0, formats0, changed) {
      assert Entering(states', i) == Entering(states, i);
    }
  }

  /** The loop of the framework's re-highlighting: redo line `changed`, then each
      following line while the state handed on differs from the one stored
      before. It stops after line `last`; the lines up to it are up to date, the
      others are untouched, every line before `last` changed the state it hands
      on, and where it stopped early the state handed on did not move. A line that was up to date is written back as it was, and the loop
      stops right after it. */
  method Propagate(h: CppHighlighter, lines: seq<string>, states: array<int>, formats: array<seq<Style>>,
                   changed: nat)
    returns (last: nat)
    requires h.Valid()
    requires states.Length == |lines| && formats.Length == |lines| && changed < |lines|
    requires UpToDateBelow(h.highlightingRules, lines, states[..], formats[..], changed)
    modifies h, states, formats
    ensures h.Valid() && h.highlightingRules == old(h.highlightingRules)
    ensures changed <= last < |lines|
    ensures Framed(old(states[..]), old(formats[..]), states[..], formats[..], changed, last + 1)
    ensures UpToDateBelow(h.highlightingRules, lines, states[..], formats[..], last + 1)
    ensures last + 1 < |lines| ==> states[last] == old(states[last])
    ensures forall j :: changed <= j < last ==> states[j] != old(states[j])
    ensures old(LineUpToDate(h.highlightingRules, lines, states[..], formats[..], changed)) ==>
      last == changed && states[..] == old(states[..]) && formats[..] == old(formats[..])
  {
    ghost var rules := h.highlightingRules;
    ghost var states0 := states[..];
    ghost var formats0 := formats[..];
    ghost var wasUpToDate := LineUpToDate(rules, lines, states0, formats0, changed);
    var i := changed;
    var force := true;
    while i < |lines| && force
      invariant changed <= i <= |lines|
      invariant h.Valid() && h.highlightingRules == rules
      invariant i == changed ==> force
      invariant !force ==> i > changed && states[i - 1] == states0[i - 1]
      invariant i > changed && force ==> states[i - 1] != states0[i - 1]
      invariant forall j :: changed <= j < i - 1 ==> states[j] != states0[j]
      invariant Framed(states0, formats0, states[..], formats[..], changed, i)
      invariant UpToDateBelow(rules, lines, states[..], formats[..], i)
      invariant wasUpToDate ==> states[..] == states0 && formats[..] == formats0
      invariant wasUpToDate ==> i <= changed + 1 && (i > changed ==> !force)
      decreases |lines| - i
    {
      ghost var before := states[..];
      ghost var formatsBefore := formats[..];
      force := RedoBlock(h, lines, states, formats, i);
      RehighlightStep(rules, lines, states0, formats0, before, formatsBefore, states[..], formats[..], changed, i, force);
      i := i + 1;
    }
    last := i - 1;
  }

  /** The framework's re-highlighting after line `changed` was edited: highlight
      it, then each following line while the state handed on differs from the one
      stored before. Every other line was up to date before the edit; afterwards
      every line is, the stored states are the fold, and nothing before `changed`
      or after the last line redone has moved. It went on past a line exactly
      when that line's stored state changed. When the edited line was already
      up to date, only that line is redone and nothing changes. */
  method Rehighlight(h: CppHighlighter, lines: seq<string>, states: array<int>, formats: array<seq<Style>>,
                     changed: nat)
    returns (last: nat)
    requires h.Valid()
    requires states.Length == |lines| && formats.Length == |lines| && changed < |lines|
    requires forall i :: 0 <= i < |lines| && i != changed ==> LineUpToDate(h.highlightingRules, lines, states[..], formats[..], i)
    modifies h, states, formats
    ensures h.Valid() && h.highlightingRules == old(h.highlightingRules)
    ensures changed <= last < |lines|
    ensures forall i :: 0 <= i < |lines| ==> LineUpToDate(h.highlightingRules, lines, states[..], formats[..], i)
    ensures states[..] == ExitStates(lines)
    ensures states[..changed] == old(states[..changed]) && formats[..changed] == old(formats[..changed])
    ensures states[last + 1..] == old(states[last + 1..]) && formats[last + 1..] == old(formats[last + 1..])
    ensures forall j :: changed <= j < last ==> states[j] != old(states[j])
    ensures last + 1 < |lines| ==> states[last] == old(states[last])
    ensures old(LineUpToDate(h.highlightingRules, lines, states[..], formats[..], changed)) ==>
      last == changed && states[..] == old(states[..]) && formats[..] == old(formats[..])
  {
    ghost var rules := h.highlightingRules;
    ghost var states0 := states[..];
    ghost var formats0 := formats[..];
    last := Propagate(h, lines, states, formats, changed);
    Settled(rules, lines, states0, formats0, states[..], formats[..], changed, last + 1);
    FramedSlices(states0, formats0, states[..], formats[..], changed, last + 1);
  }
}
