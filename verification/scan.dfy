/** The search loop of `highlightBlock` for one pattern, independent of what the
    pattern is. A pattern is seen through its match table: `t[k]` is the length of
    the longest match starting at offset `k` of the line, or -1 when none starts
    there. */
module Scan {
  import opened Format

  /** Every entry is -1 or the length of a non-empty match that fits in the line. */
  predicate IsMatchTable(t: seq<int>) {
    forall k :: 0 <= k < |t| ==> t[k] == -1 || 1 <= t[k] <= |t| - k
  }

  /** No match starts in `[lo, hi)`. */
  predicate NoMatchIn(t: seq<int>, lo: int, hi: int) {
    forall k :: 0 <= k < |t| && lo <= k < hi ==> t[k] == -1
  }

  /** `indexIn(text, from)`: the first offset at or after `from` where a match
      starts, or -1. */
  function FirstMatch(t: seq<int>, from: nat): (r: int)
    ensures r == -1 || (from <= r < |t| && t[r] != -1)
    ensures NoMatchIn(t, from, if r == -1 then |t| else r)
    decreases |t| - from
  {
    if from >= |t| then -1
    else if t[from] != -1 then from
    else FirstMatch(t, from + 1)
  }

  /** A value the loop variable `index` can hold: -1, or the start of a match. */
  predicate IsFound(t: seq<int>, index: int) {
    index == -1 || (0 <= index < |t| && t[index] != -1)
  }

  /** The ranges the loop stamps from the moment its search stands at `index`:
      the match there, then, searching again from its end, every later one. */
  function Ranges(t: seq<int>, index: int, style: Style): seq<FormatRange>
    requires IsMatchTable(t) && IsFound(t, index)
    decreases if index < 0 then 0 else |t| + 1 - index
  {
    if index < 0 then []
    else [FormatRange(index, t[index], style)] + Ranges(t, FirstMatch(t, index + t[index]), style)
  }

  /** One turn of the loop: the match the search stands at, then the ranges of the
      search resumed after it. */
  lemma RangesStep(t: seq<int>, index: nat, style: Style)
    requires IsMatchTable(t) && IsFound(t, index)
    ensures var next := FirstMatch(t, index + t[index]);
      && IsFound(t, next) && (next == -1 || index + t[index] <= next)
      && Ranges(t, index, style) == [FormatRange(index, t[index], style)] + Ranges(t, next, style)
  {
  }

  /** Each range lies in the line at or after the match the search stands at,
      carries the style, and is a whole longest match, so it is never empty. */
  lemma {:induction false} RangesAreMatches(t: seq<int>, index: int, style: Style)
    requires IsMatchTable(t) && IsFound(t, index)
    ensures forall r :: r in Ranges(t, index, style) ==>
      && r.style == style && index <= r.start < |t| && t[r.start] == r.length
      && 1 <= r.length && End(r) <= |t|
    decreases if index < 0 then 0 else |t| + 1 - index
  {
    if index >= 0 {
      RangesStep(t, index, style);
      RangesAreMatches(t, FirstMatch(t, index + t[index]), style);
    }
  }

  /** Consecutive ranges: the next starts at or after the end of the one before, and
      nothing matches in between. */
  lemma {:induction false} RangesConsecutive(t: seq<int>, index: int, style: Style)
    requires IsMatchTable(t) && IsFound(t, index)
    ensures var rs := Ranges(t, index, style);
      forall k :: 0 <= k < |rs| - 1 ==> End(rs[k]) <= rs[k + 1].start && NoMatchIn(t, End(rs[k]), rs[k + 1].start)
    decreases if index < 0 then 0 else |t| + 1 - index
  {
    if index >= 0 {
      var next := FirstMatch(t, index + t[index]);
      var rs := Ranges(t, index, style);
      var rest := Ranges(t, next, style);
      RangesStep(t, index, style);
      RangesConsecutive(t, next, style);
      forall k | 0 <= k < |rs| - 1
        ensures End(rs[k]) <= rs[k + 1].start && NoMatchIn(t, End(rs[k]), rs[k + 1].start)
      {
        if k == 0 {
          assert rs[1] == rest[0];
        } else {
          assert rs[k] == rest[k - 1] && rs[k + 1] == rest[k];
        }
      }
    }
  }

  /** Nothing matches after the last range. */
  lemma {:induction false} RangesReachLastMatch(t: seq<int>, index: int, style: Style)
    requires IsMatchTable(t) && IsFound(t, index)
    ensures var rs := Ranges(t, index, style);
      rs != [] ==> NoMatchIn(t, End(rs[|rs| - 1]), |t|)
    decreases if index < 0 then 0 else |t| + 1 - index
  {
    if index >= 0 {
      var next := FirstMatch(t, index + t[index]);
      RangesStep(t, index, style);
      RangesReachLastMatch(t, next, style);
      if next != -1 {
        var rs := Ranges(t, index, style);
        var rest := Ranges(t, next, style);
        assert rs[|rs| - 1] == rest[|rest| - 1];
      }
    }
  }

  /** The search only moves forward, so the ranges are in increasing order and
      pairwise disjoint. */
  lemma {:induction false} RangesOrdered(t: seq<int>, index: int, style: Style, a: nat, b: nat)
    requires IsMatchTable(t) && IsFound(t, index)
    requires a < b < |Ranges(t, index, style)|
    ensures End(Ranges(t, index, style)[a]) <= Ranges(t, index, style)[b].start
    decreases b - a
  {
    var rs := Ranges(t, index, style);
    RangesConsecutive(t, index, style);
    if a + 1 < b {
      RangesOrdered(t, index, style, a + 1, b);
      RangesAreMatches(t, index, style);
      assert rs[a + 1] in rs;
    }
  }

  /** At most one range reaches any offset. */
  lemma RangesDisjoint(t: seq<int>, index: int, style: Style, a: nat, b: nat, x: int)
    requires IsMatchTable(t) && IsFound(t, index)
    requires a < |Ranges(t, index, style)| && b < |Ranges(t, index, style)| && a != b
    requires Covers(Ranges(t, index, style)[a], x)
    ensures !Covers(Ranges(t, index, style)[b], x)
  {
    if a < b {
      RangesOrdered(t, index, style, a, b);
    } else {
      RangesOrdered(t, index, style, b, a);
    }
  }
}
