# QCodeCPP syntax highlighter, modelled in Dafny

This project models the C++ syntax highlighter `QCodeCPP` of the QCodeEdit
text control, written in C++ on Qt. It covers two parts:

- The constructor builds an ordered table of 22 highlighting rules: 16
  whole-word keywords, then numeric constants, function names, infix
  operators, dynamic function names (`name!(`), double-quoted strings and `//`
  comments. It also fixes the block-comment delimiters `/*` and `*/`.
- `highlightBlock(text)` formats one line in two phases:
  - Every rule, in table order, searches the line left to right. It stamps
    each match with its format, and each search resumes where the last match
    ended.
  - A two-state block-comment machine then stamps comment regions over the
    rule output. It starts from the state the previous line handed on: 1 means
    inside a comment, any other value means normal. It records 0 or 1 for the
    next line.

The model keeps the source's imperative form. `CppHighlighter` is a class
with these fields:

- the rule list;
- the format buffer of the line, as an array of style tags;
- the previous and current block states.

Its constructor appends the rules one by one. `HighlightBlock` runs the rule
loop (`ApplyRule`) and the comment loop (`MarkComments`) over the buffer,
through `SetFormat`, which clips the way Qt's `setFormat` does.

Each method is proved against a specification function:

- `RuleRanges`/`RuleStyles` give the rule phase;
- `CommentScanOf` gives the comment regions and the exit state;
- `Paint` gives the buffer after a sequence of `setFormat` calls;
- `LineStyles` composes them.

The properties are proved about those functions.

The regular-expression engine is not modelled. Each of the seven concrete
patterns has a hand-written matcher (`MatchAt`). Each matcher is proved to
return the longest match at an offset, measured against a declarative
description of the pattern (`Matches`). The search loop sees a pattern only
through its match table (module `Scan`).

The `RegExp` class stands for the compiled expression object. `indexIn`
searches and remembers the match length, which `matchedLength()` reads.

The comment delimiters are searched as fixed two-character strings
(`IndexOf`).

The model keeps these behaviours of the code as written:

- The terminator search starts at the opener's own offset, so `/*/` opens and
  closes a comment by itself.
- The infix-operator class contains the range `+`..`/`, so `,` and `.` are
  operator characters. An operator run needs `\b` on both sides, so it must
  sit between word characters: `a+b` has one operator, `a + b` has none.
- The `.` in the numeric pattern is unescaped and matches any character. In
  `f(1)`, the constant is `1)`.
- The string pattern is greedy: it runs from a quote to the last quote of the
  line.
- The previous state is compared with 1 only. So -1, the state of a block
  that has none yet, counts as normal.

Qt's `QSyntaxHighlighter` carries one line's exit state into the next line.
That code is not part of this repository. It is modelled in module
`Document` in two forms:

- a fold over the lines (`ExitStates`);
- the re-highlighting loop after an edit (`Rehighlight`): redo the edited
  line, then each following line, for as long as the state it hands on has
  changed.

`Rehighlight` is proved to restore the invariant that every stored state and
format agrees with the line before it.

Files: `text.dfy` (character classes, runs, literal search), `patterns.dfy`
(matchers, `RegExp`), `scan.dfy` (the search loop over a match table),
`format.dfy` (styles and `setFormat`), `rules.dfy` (the rule table and the
rule phase), `comments.dfy` (the comment machine), `highlighter.dfy` (the
class), `document.dfy` (the cross-line hand-off).

## Model

| member | source | states |
|---|---|---|
| Text.RunLengthSpec | QCodeEdit/qcodecpp.cpp:60-85 | A run of one character class, as used by the patterns' `[..]+` and `[..]*` parts, stays in the line, holds only class characters, and is followed by a non-class character or the end of the line |
| Text.RunLengthIsMaximal | QCodeEdit/qcodecpp.cpp:60-85 | No run of class characters at an offset is longer than the measured run (greedy repetition) |
| Text.NoBoundaryWithinRun | QCodeEdit/qcodecpp.cpp:65-75 | Inside a run of word characters, or of operator characters, there is no `\b` position |
| Text.OperatorCharIsNotWordChar | QCodeEdit/qcodecpp.cpp:70 | No character of the infix-operator class, including the `+`..`/` range, is a word character |
| Text.LastIndexOfSpec | QCodeEdit/qcodecpp.cpp:80 | The last quote of the line is found: -1 when there is none, and no quote follows it |
| Text.IndexOf | QCodeEdit/qcodecpp.cpp:91-92 | A fixed-string search returns -1 or an offset at or after `from` where the whole delimiter fits in the line |
| Text.IndexOfSpec | QCodeEdit/qcodecpp.cpp:110-113 | The delimiter search returns the first occurrence at or after `from`, and -1 only when there is none |
| Patterns.Matches | QCodeEdit/qcodecpp.cpp:34-85 | The declarative meaning of each rule pattern: it matches `n` characters at an offset, with `\b` and the look-ahead `(?=\()` reading the characters around them; the matchers are proved against it |
| Patterns.WordLen | QCodeEdit/qcodecpp.cpp:34 | The matcher of `\bKW\b`: the keyword's length where it stands between two boundaries, else -1 (proved by `WordLenIsLongest`) |
| Patterns.NumberLen | QCodeEdit/qcodecpp.cpp:60 | The matcher of the numeric pattern, `\b-?[0-9]+.[0-9]*` or else `-?[0-9]+\b`: the longest match of the two alternatives, or -1 (proved by `NumberLenMatches` and `NumberLenIsLongest`) |
| Patterns.FunctionNameLen | QCodeEdit/qcodecpp.cpp:65 | The matcher of `\b[A-Za-z0-9_]+(?=\()`: the word run after a boundary when `(` follows it (proved by `FunctionNameLenIsLongest`) |
| Patterns.InfixOperatorLen | QCodeEdit/qcodecpp.cpp:70 | The matcher of the infix-operator pattern: the operator run when `\b` holds at both ends (proved by `InfixOperatorLenIsLongest`) |
| Patterns.DynamicFunctionNameLen | QCodeEdit/qcodecpp.cpp:75 | The matcher of `\b[A-Za-z0-9_]+!(?=\()`: the word run and `!` when `(` follows (proved by `DynamicFunctionNameLenIsLongest`) |
| Patterns.QuotationLen | QCodeEdit/qcodecpp.cpp:80 | The matcher of `".*"`: from a quote to the last quote of the line (proved by `QuotationLenIsLongest`) |
| Patterns.LineCommentLen | QCodeEdit/qcodecpp.cpp:85 | The matcher of `//[^\n]*`: `//` and the rest of the line up to a newline (proved by `LineCommentLenIsLongest`) |
| Patterns.MatchAt | QCodeEdit/qcodecpp.cpp:34-85 | What `matchedLength()` reports for a search that stopped at an offset, dispatching on the rule's pattern (proved by `MatchAtIsLongest`) |
| Patterns.WordLenIsLongest | QCodeEdit/qcodecpp.cpp:34 | `\bKW\b` matches exactly the keyword, standing between two word boundaries |
| Patterns.SignedDigitsWithinRun | QCodeEdit/qcodecpp.cpp:60 | `-?[0-9]+` never reaches past the sign and the digit run after it |
| Patterns.NumberLenMatches | QCodeEdit/qcodecpp.cpp:60 | The numeric matcher's answer is -1 or a match of one of the two alternatives, with the unescaped `.` matching any character |
| Patterns.SignedDigitsAtBoundaryIsLongest | QCodeEdit/qcodecpp.cpp:60 | A match of `-?[0-9]+\b` is no longer than the matcher's answer |
| Patterns.SignedDigitsAnyDigitsIsLongest | QCodeEdit/qcodecpp.cpp:60 | A match of `\b-?[0-9]+.[0-9]*` is no longer than the matcher's answer |
| Patterns.NumberLenIsLongest | QCodeEdit/qcodecpp.cpp:60 | The numeric matcher returns the longest match of the whole alternation, or -1 when there is none |
| Patterns.FunctionNameLenIsLongest | QCodeEdit/qcodecpp.cpp:65 | Function names are the longest word run after a boundary that is followed by `(`, and the `(` is not part of the match |
| Patterns.InfixOperatorLenIsLongest | QCodeEdit/qcodecpp.cpp:70 | Infix operators are the longest operator run with a `\b` at both ends |
| Patterns.DynamicFunctionNameLenIsLongest | QCodeEdit/qcodecpp.cpp:75 | Dynamic function names are a word run plus `!`, followed by `(` |
| Patterns.QuotationLenIsLongest | QCodeEdit/qcodecpp.cpp:80 | `".*"` from a quote runs to the last quote of the line |
| Patterns.LineCommentLenIsLongest | QCodeEdit/qcodecpp.cpp:85 | `//[^\n]*` runs from `//` to the end of the line or the first newline |
| Patterns.MatchAtIsLongest | QCodeEdit/qcodecpp.cpp:99-101 | At every offset, the engine's answer for any rule pattern is the longest match there, or -1 exactly when none starts there |
| Patterns.MatchAtBounded | QCodeEdit/qcodecpp.cpp:101 | `matchedLength()` after a successful search is at least 1 and stays inside the line |
| Patterns.MatchTable | QCodeEdit/qcodecpp.cpp:98-101 | The per-offset answers of a pattern over a line form a match table: line-long, each entry -1 or a non-empty length that fits |
| Patterns.Search | QCodeEdit/qcodecpp.cpp:99-103 | `indexIn(text, from)` returns the first offset at or after `from` where a match starts, and -1 only when none starts in the rest of the line |
| Patterns.SearchIsFirstMatch | QCodeEdit/qcodecpp.cpp:103 | The search agrees with the first match-table entry from `from` on |
| Patterns.RegExp.constructor | QCodeEdit/qcodecpp.cpp:98 | `QRegExp expression(rule.pattern)` holds the rule's pattern and no match yet |
| Patterns.RegExp.IndexIn | QCodeEdit/qcodecpp.cpp:99-103 | `indexIn` returns the first match at or after `from` and leaves its length for `matchedLength()`, which is -1 after a failed search |
| Patterns.MatchTableIsLongest | QCodeEdit/qcodecpp.cpp:99-101 | Every match-table entry is the longest match at its offset |
| Patterns.InfixOperatorQuirks | QCodeEdit/qcodecpp.cpp:70 | `,` is an operator character (`a,b` has an operator at 1); `a+b` has one and `a + b` has none |
| Patterns.NumberDotQuirk | QCodeEdit/qcodecpp.cpp:60 | In `f(1)`, the numeric constant at offset 2 is two characters long: `1)` |
| Patterns.QuotationGreedyQuirk | QCodeEdit/qcodecpp.cpp:80 | In `"a"+"b"`, the string match covers all seven characters |
| Patterns.DynamicFunctionQuirk | QCodeEdit/qcodecpp.cpp:65-75 | `foo!(` is a dynamic function name of length 4 and not a function name |
| Rules.RuleTable | QCodeEdit/qcodecpp.cpp:52-87 | The constructor's table: the keyword rules, then the six other rules in append order (proved by `RuleTableWellFormed` and `RuleTableOrder`) |
| Rules.RuleRanges | QCodeEdit/qcodecpp.cpp:98-104 | The spans one rule's loop stamps: the ranges of its match table from the first match at 0 (proved by `RuleRangesAreMatches` and `RuleRangesAreSuccessive`) |
| Rules.AllRuleRanges | QCodeEdit/qcodecpp.cpp:97-105 | The spans of the whole rule phase, rule by rule in table order (proved by `AllRuleRangesStep` and `AllRuleRangesAvoid`) |
| Rules.RuleStyles | QCodeEdit/qcodecpp.cpp:97-105 | The line's formats after the rule phase: the rule spans painted over a plain line (proved by `LaterRuleOverrides`, `RuleStylesAvoid` and `UnmatchedStaysPlain`) |
| Rules.KeywordRules | QCodeEdit/qcodecpp.cpp:52-56 | The keyword loop yields one keyword-format whole-word rule per keyword, in list order |
| Rules.RuleTableWellFormed | QCodeEdit/qcodecpp.cpp:33-87 | The constructor's table has 22 rules, none of which matches the empty string |
| Rules.RuleTableOrder | QCodeEdit/qcodecpp.cpp:34-87 | The table holds the 16 keyword rules, then numeric, function, infix, dynamic function, quotation and line comment, in that order. No rule has the plain or block-comment format |
| Rules.KeywordIsWholeWord | QCodeEdit/qcodecpp.cpp:34 | `\bint\b` finds nothing in `integer`; it finds `int` of length 3 at 0 in `int x`, and nothing after it |
| Rules.RuleRangesAreMatches | QCodeEdit/qcodecpp.cpp:97-105 | Each span one rule stamps lies in the line, carries the rule's format, and is the non-empty longest match at its start |
| Rules.RuleRangesAreSuccessive | QCodeEdit/qcodecpp.cpp:99-104 | One rule's spans are increasing and non-overlapping. No match starts before the first, between two, or after the last: the search resumes at `index + length` |
| Rules.AllRuleRangesStep | QCodeEdit/qcodecpp.cpp:97 | The rules are applied in table order: the spans of the first r+1 rules are those of the first r, then rule r's |
| Rules.LaterRuleOverrides | QCodeEdit/qcodecpp.cpp:97-105 | A later rule overrides: an offset takes its format exactly when one of its matches covers it, and otherwise keeps what the earlier rules gave it |
| Rules.AllRuleRangesAvoid | QCodeEdit/qcodecpp.cpp:97-105 | The rule phase stamps no format that no rule carries |
| Rules.RuleStylesAvoid | QCodeEdit/qcodecpp.cpp:97-105 | After the rule phase, every offset is plain or has the format of some rule |
| Rules.UnmatchedStaysPlain | QCodeEdit/qcodecpp.cpp:97-105 | An offset that no rule's match covers stays unformatted |
| Scan.FirstMatch | QCodeEdit/qcodecpp.cpp:99-103 | The first match at or after `from` has a match-table entry, and no match starts before it (or anywhere, when it is -1) |
| Scan.Ranges | QCodeEdit/qcodecpp.cpp:99-104 | The spans the `indexIn`/`matchedLength` loop stamps from a found index over a match table (proved by `RangesStep`, `RangesAreMatches`, `RangesConsecutive` and `RangesDisjoint`) |
| Scan.RangesStep | QCodeEdit/qcodecpp.cpp:100-103 | One loop turn: the match at `index`, then the matches of the search resumed at `index + length`, which lies beyond it |
| Scan.RangesAreMatches | QCodeEdit/qcodecpp.cpp:100-104 | Every span of the loop is a whole, non-empty table match inside the line, at or after the starting index |
| Scan.RangesConsecutive | QCodeEdit/qcodecpp.cpp:100-104 | Each span starts at or after the end of the one before, and no match starts in between |
| Scan.RangesReachLastMatch | QCodeEdit/qcodecpp.cpp:100-104 | No match starts after the last span |
| Scan.RangesOrdered | QCodeEdit/qcodecpp.cpp:100-104 | Any earlier span ends before any later one starts |
| Scan.RangesDisjoint | QCodeEdit/qcodecpp.cpp:100-104 | No offset is covered by two spans of one rule |
| Format.Stamp | QCodeEdit/qcodecpp.cpp:102 | One `setFormat(start, count, format)` call on the line's buffer: the offsets it covers take the format, the others keep theirs |
| Format.Paint | QCodeEdit/qcodecpp.cpp:102-122 | A sequence of `setFormat` calls applied in order; the buffer keeps its length (proved by `PaintLastWins` and `PaintAppend`) |
| Format.LastCover | QCodeEdit/qcodecpp.cpp:102 | The index of the last `setFormat` call that reaches an offset: it reaches it, and no later call does |
| Format.PaintLastWins | QCodeEdit/qcodecpp.cpp:102 | After a sequence of `setFormat` calls, each offset has the format of the last call that reaches it, or keeps its old format |
| Format.PaintAppend | QCodeEdit/qcodecpp.cpp:102 | Applying two batches of `setFormat` calls is applying their concatenation |
| Format.PaintCovered | QCodeEdit/qcodecpp.cpp:122 | A call that reaches an offset, with no later call reaching it, decides that offset's format |
| Format.PaintUncovered | QCodeEdit/qcodecpp.cpp:102 | An offset that no call reaches keeps its format |
| Comments.CommentsFrom | QCodeEdit/qcodecpp.cpp:112-124 | The comment loop from `startIndex`: the regions it stamps and the state it records (proved by `CommentsStep`, `CommentsExit`, `CommentsShape` and `CommentsSuccessive`) |
| Comments.EntryIndex | QCodeEdit/qcodecpp.cpp:108-110 | Where the comment loop starts: 0 when the previous block's state is 1, otherwise the first `/*` or -1 (proved by `FirstRegion`) |
| Comments.CommentScanOf | QCodeEdit/qcodecpp.cpp:106-124 | The comment machine of one line, from its entering state (proved by `ExitState`, `NoOpenerNoComment` and `RegionShape`) |
| Comments.NextOpener | QCodeEdit/qcodecpp.cpp:123 | The next opener search resumes at `startIndex + commentLength`, so it returns -1 or an offset beyond the region's start: the loop terminates |
| Comments.CommentsStep | QCodeEdit/qcodecpp.cpp:112-123 | One turn of the comment loop: the region from `startIndex` through the terminator (or to the end of the line, recording state 1), then the loop from the next opener |
| Comments.CommentsHead | QCodeEdit/qcodecpp.cpp:112 | The loop stamps nothing exactly when it starts at -1, and otherwise its first region starts where it starts |
| Comments.CommentsExit | QCodeEdit/qcodecpp.cpp:106-117 | The loop records 0 or 1. It records 1 exactly when its last region found no terminator searching from its own start, and that region then reaches the end of the line |
| Comments.CommentsShape | QCodeEdit/qcodecpp.cpp:112-122 | Every region has the comment format, lies in the line at or after the loop start, and ends right after the first `*/` searched from its own start, or at the end of the line |
| Comments.SuccessiveCons | QCodeEdit/qcodecpp.cpp:123 | A region followed by the regions of the loop resumed at its end keeps the regions successive |
| Comments.CommentsSuccessive | QCodeEdit/qcodecpp.cpp:123 | Each region after the first starts at the first opener at or after the end of the one before, and no opener follows the last |
| Comments.CommentsConsecutive | QCodeEdit/qcodecpp.cpp:112-123 | Every region but the last is at least two characters long, the next starts at or after its end, and no `/*` starts in between |
| Comments.CommentsIncreasing | QCodeEdit/qcodecpp.cpp:112-123 | The regions are in strictly increasing order |
| Comments.CommentsDisjoint | QCodeEdit/qcodecpp.cpp:112-123 | No offset is in two comment regions |
| Comments.ExitState | QCodeEdit/qcodecpp.cpp:106-117 | For a whole line: the exit state is 0 or 1, and it is 1 exactly when the last region is unterminated, which then reaches the end of the line |
| Comments.NoOpenerNoComment | QCodeEdit/qcodecpp.cpp:106-112 | No region is stamped exactly when the line enters in a state other than 1 and holds no `/*`; the exit state is then 0 |
| Comments.FirstRegion | QCodeEdit/qcodecpp.cpp:108-110 | Entering in state 1, the first region starts at offset 0; entering in any other state, it starts at the first `/*` |
| Comments.RegionShape | QCodeEdit/qcodecpp.cpp:113-122 | Every region of a line lies in the line and runs through the first `*/` searched from its own start, or to the end of the line |
| Comments.UnterminatedLine | QCodeEdit/qcodecpp.cpp:109-117 | A line that enters in state 1 and holds no `*/` is one comment region from end to end, and hands on state 1 |
| Comments.SelfClosingOpener | QCodeEdit/qcodecpp.cpp:113 | `/*/` is a complete comment. `x*/ /* y` entering in state 1 closes at offset 3, then opens a comment that stays open |
| Highlighter.LineStyles | QCodeEdit/qcodecpp.cpp:95-125 | The formats of a line: one per character, the rule phase and then the comment regions over it |
| Highlighter.HighlightLine | QCodeEdit/qcodecpp.cpp:95-125 | Highlighting a line with the constructor's table gives one format per character and the state it hands on |
| Highlighter.CppHighlighter.constructor | QCodeEdit/qcodecpp.cpp:26-93 | The constructor leaves exactly the rule table: 16 keyword rules appended in a loop, then the six others. No block has a state yet (-1) |
| Highlighter.CppHighlighter.BeginBlock | QCodeEdit/qcodecpp.cpp:95 | Before `highlightBlock`, the line's buffer is all plain and `previousBlockState()` is the state handed on |
| Highlighter.CppHighlighter.Highlight | QCodeEdit/qcodecpp.cpp:95-125 | Highlighting one block leaves the buffer equal to `LineStyles` and the current state equal to the comment machine's exit state |
| Highlighter.CppHighlighter.SetFormat | QCodeEdit/qcodecpp.cpp:102 | `setFormat` writes the format over `[start, start+count)`, cut at the end of the buffer, and ignores a start outside the buffer. The same call is used at line 122 |
| Highlighter.CppHighlighter.HighlightBlock | QCodeEdit/qcodecpp.cpp:95-125 | The buffer ends as the rule spans in table order, then the comment regions. The recorded state is the comment machine's exit state |
| Highlighter.CppHighlighter.ApplyRule | QCodeEdit/qcodecpp.cpp:98-104 | One rule's loop stamps exactly its successive matches over the buffer |
| Highlighter.CppHighlighter.MarkComments | QCodeEdit/qcodecpp.cpp:106-124 | The comment loop stamps exactly the comment regions and records the exit state |
| Highlighter.RuleStep | QCodeEdit/qcodecpp.cpp:101-103 | One turn of a rule's loop keeps what is left to stamp in step with the buffer |
| Highlighter.StampThenPaint | QCodeEdit/qcodecpp.cpp:122 | Stamping one region, then the rest, is stamping them all in order |
| Highlighter.CommentWins | QCodeEdit/qcodecpp.cpp:97-124 | Comment formatting comes last: an offset ends in the block-comment format exactly when a comment region covers it, whatever the rules stamped there |
| Highlighter.OutsideCommentKeepsRuleStyle | QCodeEdit/qcodecpp.cpp:97-124 | Outside the comment regions, an offset keeps the rule phase's format |
| Highlighter.StateOnlyMovesComments | QCodeEdit/qcodecpp.cpp:108-110 | The rule phase never reads the block state: outside the comment regions the entering state makes no difference, and all states other than 1 give the same line |
| Document.ExitStates | QCodeEdit/qcodecpp.cpp:106-116 | The fold of exit states over a document has one state per line |
| Document.LineUpToDate | QCodeEdit/qcodecpp.cpp:95-125 | A line stores the formats and the state that `highlightBlock` gives it after the stored state of the line before (related to the fold by `UpToDateIsFold` and `Settled`) |
| Document.UpToDateIsFold | QCodeEdit/qcodecpp.cpp:106-116 | Every stored state equals the exit state of its line, entered with the state stored before it, exactly when the stored states are the fold |
| Document.ExitStatesBinary | QCodeEdit/qcodecpp.cpp:106-116 | Every line of a document hands on 0 or 1 |
| Document.Untouched | QCodeEdit/qcodecpp.cpp:109 | A line whose stored state, format and entering state did not move stays up to date |
| Document.Settled | QCodeEdit/qcodecpp.cpp:106-116 | Where the re-highlighting loop stops, every line is up to date and the stored states are the fold |
| Document.FramedSlices | QCodeEdit/qcodecpp.cpp:106-116 | Nothing before the edited line, and nothing from the stop on, has moved |
| Document.RedoBlock | QCodeEdit/qcodecpp.cpp:95-125 | Highlighting one block with the stored previous state brings that block up to date, moves no other block, and reports whether its state changed |
| Document.RehighlightStep | QCodeEdit/qcodecpp.cpp:106-116 | One turn of the re-highlighting loop keeps the lines up to it up to date and the lines after it untouched |
| Document.Propagate | QCodeEdit/qcodecpp.cpp:106-116 | The loop redoes the edited line and each following one while the state handed on changed: every line redone before the last changed its stored state, and where the loop stopped early the last one did not. A line that was up to date is written back as it was |
| Document.Rehighlight | QCodeEdit/qcodecpp.cpp:106-116 | After an edit to one line, re-highlighting makes every line up to date and the stored states the fold. Lines before the edit and after the last redone line are unchanged. It went on past a line exactly when that line's stored state changed; an edit that changed nothing redoes one line only |

## Left out

- The general `QRegExp` engine is not modelled. Each of the seven patterns of the table has its own matcher, proved against a description of that pattern alone.
- A line is modelled as a sequence of Unicode scalar values, not of the UTF-16 code units `QString` holds. Offsets, lengths and the numeric pattern's `.` therefore count a character outside the Basic Multilingual Plane as one unit where Qt counts two: on `1😀5`, Qt's `.` takes only the high surrogate and `5` is a second match, while here `NumberLen` gives one match over the whole line.
- `\b` and the `[A-Za-z0-9_]` classes use ASCII word characters. `QRegExp` treats every Unicode letter and digit as a word character; that difference is not captured.
- Colours, font weights and the contents of `QTextCharFormat` are reduced to a style tag per rule.
- A search started from a negative offset is not modelled. `QRegExp` counts such an offset from the end of the string; the loops here never pass one.
- `highlightBlock` is split into `ApplyRule` (one rule's loop) and `MarkComments` (the comment loop), called from `HighlightBlock` in source order.
- The block-comment expressions `/\*` and `\*/` are searched as the fixed strings `/*` and `*/`. `matchedLength()` after a successful terminator search is therefore the constant 2.
- Qt's `QSyntaxHighlighter` and `QTextDocument` are not part of this repository. Their hand-off of block states is modelled as a fold and as one re-highlighting pass after a single edited line. Scheduling, several edits at once and storage in text blocks are left out.
- The editor widget (`QCodeEdit/qcodeedit.cpp`) and the main window (`mainwindow.cpp`) are Qt user-interface code, with file and process I/O, and are not part of this model.
