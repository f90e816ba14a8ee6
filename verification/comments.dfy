/** The second phase of `highlightBlock`: the block-comment state machine. A line
    enters in the state the previous line left (1 inside a comment, anything else
    normal), stamps every comment region it finds, and leaves in state 1 exactly
    when its last region found no terminator. */
module Comments {
  import opened Text
  import opened Format

  /** `commentStartExpression` and `commentEndExpression`: both match one fixed
      two-character string, so searching for them is searching for that string. */
  const CommentStart: string := "/*"
  const CommentEnd: string := "*/"

  /** What the comment loop does to one line: the ranges it stamps, in order, and
      the block state it records. */
  datatype CommentScan = CommentScan(ranges: seq<FormatRange>, exit: int)

  /** The loop from the moment `startIndex` holds `start`: the terminator is searched
      from `start` itself, the region runs through it (or to the end of the line
      when there is none, which records state 1), and the next opener is searched
      from the end of the region. */
  function CommentsFrom(text: string, start: int): CommentScan
    requires -1 <= start <= |text|
    decreases if start < 0 then 0 else |text| + 1 - start
  {
    if start < 0 then CommentScan([], 0)
    else
      var endIndex := IndexOf(text, CommentEnd, start);
      var length := if endIndex == -1 then |text| - start
                    else endIndex - start + |CommentEnd|;
      var rest := CommentsFrom(text, IndexOf(text, CommentStart, start + length));
      CommentScan([FormatRange(start, length, MultiLineComment)] + rest.ranges,
                  if endIndex == -1 then 1 else rest.exit)
  }

  /** Where the loop starts: at offset 0 when the line enters inside a comment,
      otherwise at the first opener. Every state other than 1, including the -1 of
      a block that has none yet, counts as normal. */
  function EntryIndex(text: string, previous: int): int {
    if previous == 1 then 0 else IndexOf(text, CommentStart, 0)
  }

  function CommentScanOf(text: string, previous: int): CommentScan {
    CommentsFrom(text, EntryIndex(text, previous))
  }

  function Last(rs: seq<FormatRange>): FormatRange
    requires rs != []
  {
    rs[|rs| - 1]
  }

  /** The next opener is searched from the end of the region, so it lies beyond
      the region's start, or is -1. */
  lemma NextOpener(text: string, start: nat, endIndex: int, length: int, next: int)
    requires start <= |text| && endIndex == IndexOf(text, CommentEnd, start)
    requires length == if endIndex == -1 then |text| - start else endIndex - start + |CommentEnd|
    requires next == IndexOf(text, CommentStart, start + length)
    ensures next == -1 || start < next <= |text|
  {
    assert length >= 0 && (next != -1 ==> start + length <= next && next + |CommentStart| <= |text|);
  }

  /** One turn of the loop, unfolded: the region found at `start`, then the loop
      from the next opener, which lies beyond the region or is -1. */
  lemma CommentsStep(text: string, start: nat, endIndex: int, length: int, next: int)
    requires start <= |text| && endIndex == IndexOf(text, CommentEnd, start)
    requires length == if endIndex == -1 then |text| - start else endIndex - start + |CommentEnd|
    requires next == IndexOf(text, CommentStart, start + length)
    ensures next == -1 || start < next <= |text|
    ensures CommentsFrom(text, start).ranges
         == [FormatRange(start, length, MultiLineComment)] + CommentsFrom(text, next).ranges
    ensures CommentsFrom(text, start).exit == if endIndex == -1 then 1 else CommentsFrom(text, next).exit
  {
    NextOpener(text, start, endIndex, length, next);
    assert CommentsFrom(text, start)
        == CommentScan([FormatRange(start, length, MultiLineComment)] + CommentsFrom(text, next).ranges,
                       if endIndex == -1 then 1 else CommentsFrom(text, next).exit);
  }

  /** The loop stamps nothing exactly when it starts at -1, and otherwise its first
      region starts where it starts. */
  lemma CommentsHead(text: string, start: int)
    requires -1 <= start <= |text|
    ensures var rs := CommentsFrom(text, start).ranges;
      && (rs == [] <==> start < 0)
      && (rs != [] ==> rs[0].start == start)
  {
    if start >= 0 {
      var endIndex := IndexOf(text, CommentEnd, start);
      var length := if endIndex == -1 then |text| - start else endIndex - start + |CommentEnd|;
      CommentsStep(text, start, endIndex, length, IndexOf(text, CommentStart, start + length));
    }
  }

  /** The recorded state is 0 or 1, and it is 1 exactly when the last region found
      no terminator searching from its own start; that region then runs to the
      end of the line. */
  lemma {:induction false} CommentsExit(text: string, start: int)
    requires -1 <= start <= |text|
    ensures var c := CommentsFrom(text, start);
      && (c.exit == 0 || c.exit == 1)
      && (c.exit == 1 <==> c.ranges != [] && 0 <= Last(c.ranges).start
                           && IndexOf(text, CommentEnd, Last(c.ranges).start) == -1)
      && (c.exit == 1 ==> End(Last(c.ranges)) == |text|)
    decreases if start < 0 then 0 else |text| + 1 - start
  {
    if start >= 0 {
      var endIndex := IndexOf(text, CommentEnd, start);
      var length := if endIndex == -1 then |text| - start else endIndex - start + |CommentEnd|;
      var next := IndexOf(text, CommentStart, start + length);
      CommentsStep(text, start, endIndex, length, next);
      CommentsExit(text, next);
      var c := CommentsFrom(text, start);
      var rest := CommentsFrom(text, next);
      CommentsShape(text, next);
      if rest.ranges != [] {
        assert Last(c.ranges) == Last(rest.ranges);
      }
    }
  }

  /** The regions: the first starts where the loop starts, each carries the comment
      style, lies in the line at or after `start`, and ends right after the first
      terminator searched from its own start, or at the end of the line when there
      is none. */
  lemma {:induction false} CommentsShape(text: string, start: int)
    requires -1 <= start <= |text|
    ensures var rs := CommentsFrom(text, start).ranges;
      && (rs == [] <==> start < 0)
      && (rs != [] ==> rs[0].start == start)
      && forall k :: 0 <= k < |rs| ==>
           && rs[k].style == MultiLineComment
           && 0 <= start <= rs[k].start <= End(rs[k]) <= |text|
           && var e := IndexOf(text, CommentEnd, rs[k].start);
              End(rs[k]) == if e == -1 then |text| else e + |CommentEnd|
    decreases if start < 0 then 0 else |text| + 1 - start
  {
    if start >= 0 {
      var endIndex := IndexOf(text, CommentEnd, start);
      var length := if endIndex == -1 then |text| - start else endIndex - start + |CommentEnd|;
      var next := IndexOf(text, CommentStart, start + length);
      CommentsStep(text, start, endIndex, length, next);
      CommentsShape(text, next);
      var rs := CommentsFrom(text, start).ranges;
      var rest := CommentsFrom(text, next).ranges;
      forall k | 1 <= k < |rs| ensures rs[k] == rest[k - 1] {}
    }
  }

  /** Each region after the first starts at the first opener at or after the end
      of the one before, and no opener follows the last. */
  predicate Successive(text: string, rs: seq<FormatRange>) {
    && (forall k :: 0 <= k < |rs| - 1 ==> 0 <= End(rs[k]) && rs[k + 1].start == IndexOf(text, CommentStart, End(rs[k])))
    && (rs != [] ==> 0 <= End(Last(rs)) && IndexOf(text, CommentStart, End(Last(rs))) == -1)
  }

  /** A region followed by the regions from the next opener searched from its end
      keeps the regions successive. */
  lemma SuccessiveCons(text: string, r: FormatRange, rest: seq<FormatRange>, next: int)
    requires 0 <= End(r) && next == IndexOf(text, CommentStart, End(r))
    requires (rest == [] <==> next < 0) && (rest != [] ==> rest[0].start == next)
    requires Successive(text, rest)
    ensures Successive(text, [r] + rest)
  {
    var rs := [r] + rest;
    forall k | 0 <= k < |rs| - 1
      ensures 0 <= End(rs[k]) && rs[k + 1].start == IndexOf(text, CommentStart, End(rs[k]))
    {
      if k > 0 {
        assert rs[k] == rest[k - 1] && rs[k + 1] == rest[k];
      }
    }
    if rest != [] {
      assert Last(rs) == Last(rest);
    }
  }

  lemma {:induction false} CommentsSuccessive(text: string, start: int)
    requires -1 <= start <= |text|
    ensures Successive(text, CommentsFrom(text, start).ranges)
    decreases if start < 0 then 0 else |text| + 1 - start
  {
    if start >= 0 {
      var endIndex := IndexOf(text, CommentEnd, start);
      var length := if endIndex == -1 then |text| - start else endIndex - start + |CommentEnd|;
      var next := IndexOf(text, CommentStart, start + length);
      CommentsStep(text, start, endIndex, length, next);
      CommentsSuccessive(text, next);
      CommentsHead(text, next);
      SuccessiveCons(text, FormatRange(start, length, MultiLineComment), CommentsFrom(text, next).ranges, next);
    }
  }

  /** Consecutive regions: every one but the last holds its terminator, so it is at
      least two characters long; the next starts at or after its end, and no opener
      starts in the gap between them. */
  lemma CommentsConsecutive(text: string, start: int)
    requires -1 <= start <= |text|
    ensures var rs := CommentsFrom(text, start).ranges;
      forall k :: 0 <= k < |rs| - 1 ==>
        && rs[k].length >= 2 && End(rs[k]) <= rs[k + 1].start
        && forall j :: End(rs[k]) <= j < rs[k + 1].start ==> !OccursAt(text, CommentStart, j)
  {
    var rs := CommentsFrom(text, start).ranges;
    CommentsSuccessive(text, start);
    CommentsShape(text, start);
    forall k | 0 <= k < |rs| - 1
      ensures rs[k].length >= 2 && End(rs[k]) <= rs[k + 1].start
      ensures forall j :: End(rs[k]) <= j < rs[k + 1].start ==> !OccursAt(text, CommentStart, j)
    {
      var next := IndexOf(text, CommentStart, End(rs[k]));
      assert rs[k + 1].start == next;
      IndexOfSpec(text, CommentStart, End(rs[k]));
    }
  }

  /** The regions are in strictly increasing order: each ends before any later one
      starts. */
  lemma CommentsIncreasing(text: string, start: int, a: nat, b: nat)
    requires -1 <= start <= |text|
    requires a < b < |CommentsFrom(text, start).ranges|
    ensures var rs := CommentsFrom(text, start).ranges;
      End(rs[a]) <= rs[b].start
    decreases b - a
  {
    var rs := CommentsFrom(text, start).ranges;
    CommentsConsecutive(text, start);
    if a + 1 < b {
      CommentsIncreasing(text, start, a + 1, b);
      CommentsShape(text, start);
      assert rs[a + 1].start <= End(rs[a + 1]);
    }
  }

  /** Two regions never reach the same offset. */
  lemma CommentsDisjoint(text: string, start: int, a: nat, b: nat, x: int)
    requires -1 <= start <= |text|
    requires a < |CommentsFrom(text, start).ranges| && b < |CommentsFrom(text, start).ranges| && a != b
    requires Covers(CommentsFrom(text, start).ranges[a], x)
    ensures !Covers(CommentsFrom(text, start).ranges[b], x)
  {
    if a < b {
      CommentsIncreasing(text, start, a, b);
    } else {
      CommentsIncreasing(text, start, b, a);
    }
  }

  // ---------------------------------------------------------------------------
  // The line as a whole

  /** The recorded state is 0 or 1, and 1 exactly when the last region of the line
      is unterminated, which then reaches the end of the line. */
  lemma ExitState(text: string, previous: int)
    ensures var c := CommentScanOf(text, previous);
      && (c.exit == 0 || c.exit == 1)
      && (c.exit == 1 <==> c.ranges != [] && 0 <= Last(c.ranges).start
                           && IndexOf(text, CommentEnd, Last(c.ranges).start) == -1)
      && (c.exit == 1 ==> End(Last(c.ranges)) == |text|)
  {
    CommentsExit(text, EntryIndex(text, previous));
  }

  /** No comment region is stamped exactly when the line enters outside a comment
      and holds no opener; the line then leaves in state 0. */
  lemma NoOpenerNoComment(text: string, previous: int)
    ensures var c := CommentScanOf(text, previous);
      && (c.ranges == [] <==> previous != 1 && IndexOf(text, CommentStart, 0) == -1)
      && (c.ranges == [] ==> c.exit == 0)
  {
    CommentsShape(text, EntryIndex(text, previous));
    CommentsExit(text, EntryIndex(text, previous));
  }

  /** A line that enters inside a comment starts its first region at offset 0; one
      that enters outside starts it at its first opener. */
  lemma FirstRegion(text: string, previous: int)
    ensures var rs := CommentScanOf(text, previous).ranges;
      && (previous == 1 ==> rs != [] && rs[0].start == 0)
      && (previous != 1 && rs != [] ==> rs[0].start == IndexOf(text, CommentStart, 0))
  {
    CommentsShape(text, EntryIndex(text, previous));
  }

  /** Every region lies in the line, carries the comment style and runs through
      the first terminator searched from its own start, or to the end of the line. */
  lemma RegionShape(text: string, previous: int)
    ensures var rs := CommentScanOf(text, previous).ranges;
      forall k :: 0 <= k < |rs| ==>
        && rs[k].style == MultiLineComment
        && 0 <= rs[k].start <= End(rs[k]) <= |text|
        && var e := IndexOf(text, CommentEnd, rs[k].start);
           End(rs[k]) == if e == -1 then |text| else e + |CommentEnd|
  {
    CommentsShape(text, EntryIndex(text, previous));
  }

  /** A line that enters inside a comment and holds no terminator is one comment
      region from end to end, and hands state 1 on. */
  lemma UnterminatedLine(text: string)
    requires IndexOf(text, CommentEnd, 0) == -1
    ensures CommentScanOf(text, 1) == CommentScan([FormatRange(0, |text|, MultiLineComment)], 1)
  {
    assert EntryIndex(text, 1) == 0;
    assert IndexOf(text, CommentStart, |text|) == -1;
    assert CommentsFrom(text, -1) == CommentScan([], 0);
  }

  // The terminator search starts at the opener itself, so the three characters
  // "/*/" open and close a comment; a line entering inside a comment as "x*/ /* y"
  // closes it at offset 3 and opens another that stays open.
  lemma SelfClosingOpener()
    ensures CommentScanOf("/*/", 0) == CommentScan([FormatRange(0, 3, MultiLineComment)], 0)
    ensures CommentScanOf("x*/ /* y", 1)
         == CommentScan([FormatRange(0, 3, MultiLineComment), FormatRange(4, 4, MultiLineComment)], 1)
  {
    var t := "/*/";
    assert t[0..2] == CommentStart;
    assert IndexOf(t, CommentStart, 0) == 0;
    assert t[0..2] != CommentEnd && t[1..3] == CommentEnd;
    assert IndexOf(t, CommentEnd, 1) == 1;
    assert IndexOf(t, CommentEnd, 0) == 1;
    assert IndexOf(t, CommentStart, 3) == -1;
    assert CommentsFrom(t, -1) == CommentScan([], 0);
    var s := "x*/ /* y";
    assert s[0..2] != CommentEnd && s[1..3] == CommentEnd;
    assert IndexOf(s, CommentEnd, 1) == 1;
    assert IndexOf(s, CommentEnd, 0) == 1;
    assert s[3..5] != CommentStart && s[4..6] == CommentStart;
    assert IndexOf(s, CommentStart, 4) == 4;
    assert IndexOf(s, CommentStart, 3) == 4;
    assert s[5..7][1] == ' ';
    assert s[4..6] != CommentEnd && s[5..7] != CommentEnd && s[6..8] != CommentEnd;
    assert IndexOf(s, CommentEnd, 7) == -1;
    assert IndexOf(s, CommentEnd, 6) == -1;
    assert IndexOf(s, CommentEnd, 5) == -1;
    assert IndexOf(s, CommentEnd, 4) == -1;
    assert IndexOf(s, CommentStart, 8) == -1;
  }
}
