/**
 * Field geometry of the paper-soccer board: grid points, drawn segments,
 * the goal band on the two short sides, the pre-seeded frame segments and
 * the fixed list of field sizes the player cycles through.
 */
module Geometry {

  /** A grid intersection. */
  datatype Position = Position(x: int, y: int)

  /** A drawn segment; `player` is 0 for frame segments, 1 or 2 for moves. */
  datatype Line = Line(start: Position, end: Position, player: int)

  /** Lowest row of the goal band, Math.floor(rows / 3). */
  function GoalLow(rows: nat): nat { rows / 3 }

  /** Highest row of the goal band, Math.floor(2 * rows / 3). */
  function GoalHigh(rows: nat): nat { (2 * rows) / 3 }

  lemma GoalBandWithinSide(rows: nat)
    ensures GoalLow(rows) <= GoalHigh(rows) <= rows
    ensures rows > 0 ==> GoalHigh(rows) < rows
  {
  }

  /** The kick-off point. */
  function Center(rows: nat, cols: nat): (c: Position)
    ensures InBounds(rows, cols, c)
  {
    Position(cols / 2, rows / 2)
  }

  predicate InBounds(rows: nat, cols: nat, p: Position) {
    0 <= p.x <= cols && 0 <= p.y <= rows
  }

  /** `l` joins `a` and `b`, in either orientation. */
  predicate SameSegment(l: Line, a: Position, b: Position) {
    (l.start == a && l.end == b) || (l.end == a && l.start == b)
  }

  /** Some line already joins `a` and `b` (the `lines.some(...)` test). */
  predicate LineExists(lines: seq<Line>, a: Position, b: Position) {
    exists i :: 0 <= i < |lines| && SameSegment(lines[i], a, b)
  }

  /** No undirected segment is drawn twice. */
  predicate NoDuplicateSegments(lines: seq<Line>) {
    forall i, j :: 0 <= i < j < |lines| ==> !SameSegment(lines[j], lines[i].start, lines[i].end)
  }

  lemma LineExistsConcat(a: seq<Line>, b: seq<Line>, p: Position, q: Position)
    ensures LineExists(a + b, p, q) <==> LineExists(a, p, q) || LineExists(b, p, q)
  {
    if LineExists(a + b, p, q) {
      var i :| 0 <= i < |a + b| && SameSegment((a + b)[i], p, q);
      if i >= |a| {
        assert SameSegment(b[i - |a|], p, q);
      }
    }
    if LineExists(a, p, q) {
      var i :| 0 <= i < |a| && SameSegment(a[i], p, q);
      assert SameSegment((a + b)[i], p, q);
    }
    if LineExists(b, p, q) {
      var i :| 0 <= i < |b| && SameSegment(b[i], p, q);
      assert SameSegment((a + b)[|a| + i], p, q);
    }
  }

  /** Appending a segment that is not drawn yet keeps the segments distinct. */
  lemma NoDuplicatesAppend(lines: seq<Line>, l: Line)
    requires NoDuplicateSegments(lines)
    requires !LineExists(lines, l.start, l.end)
    ensures NoDuplicateSegments(lines + [l])
  {
    var s := lines + [l];
    forall i, j | 0 <= i < j < |s|
      ensures !SameSegment(s[j], s[i].start, s[i].end)
    {
      if j == |lines| {
        if SameSegment(l, s[i].start, s[i].end) {
          assert SameSegment(lines[i], l.start, l.end);
        }
      }
    }
  }

  lemma NoDuplicatesConcat(a: seq<Line>, b: seq<Line>)
    requires NoDuplicateSegments(a) && NoDuplicateSegments(b)
    requires forall i, j :: 0 <= i < |a| && 0 <= j < |b| ==> !SameSegment(b[j], a[i].start, a[i].end)
    ensures NoDuplicateSegments(a + b)
  {
    var s := a + b;
    forall i, j | 0 <= i < j < |s|
      ensures !SameSegment(s[j], s[i].start, s[i].end)
    {
      if i >= |a| {
        assert s[i] == b[i - |a|] && s[j] == b[j - |a|];
      } else if j >= |a| {
        assert s[j] == b[j - |a|];
      }
    }
  }

  // ---------------------------------------------------------------------
  // The frame seeded by initializeLines
  // ---------------------------------------------------------------------

  /** Unit segment [i, i+1] of a short side that is closed (outside the goal mouth). */
  predicate OutsideGoal(rows: nat, i: int) {
    i < GoalLow(rows) || i > GoalHigh(rows)
  }

  /** Segments pushed by the first loop of initializeLines for i in [0, n). */
  function SideLines(rows: nat, cols: nat, n: nat): seq<Line>
  {
    if n == 0 then []
    else
      SideLines(rows, cols, n - 1) +
      (if OutsideGoal(rows, n - 1)
       then [Line(Position(0, n - 1), Position(0, n), 0), Line(Position(cols, n - 1), Position(cols, n), 0)]
       else [])
  }

  /** Segments pushed by the second loop of initializeLines for j in [0, n). */
  function EdgeLines(rows: nat, cols: nat, n: nat): seq<Line>
  {
    if n == 0 then []
    else
      EdgeLines(rows, cols, n - 1) +
      [Line(Position(n - 1, 0), Position(n, 0), 0), Line(Position(n - 1, rows), Position(n, rows), 0)]
  }

  /** The whole frame, in the order initializeLines pushes it. */
  function FrameLines(rows: nat, cols: nat): seq<Line>
  {
    SideLines(rows, cols, rows) + EdgeLines(rows, cols, cols)
  }

  /** A closed unit segment on x = 0 or x = cols starting below row n. */
  predicate IsSideSegment(rows: nat, cols: nat, n: nat, l: Line) {
    && l.player == 0
    && (l.start.x == 0 || l.start.x == cols) && l.end.x == l.start.x
    && 0 <= l.start.y < n && l.end.y == l.start.y + 1
    && OutsideGoal(rows, l.start.y)
  }

  /** A unit segment on y = 0 or y = rows starting left of column n. */
  predicate IsEdgeSegment(rows: nat, cols: nat, n: nat, l: Line) {
    && l.player == 0
    && (l.start.y == 0 || l.start.y == rows) && l.end.y == l.start.y
    && 0 <= l.start.x < n && l.end.x == l.start.x + 1
  }

  lemma {:induction false} SideLinesMembers(rows: nat, cols: nat, n: nat, l: Line)
    ensures l in SideLines(rows, cols, n) <==> IsSideSegment(rows, cols, n, l)
  {
    if n > 0 {
      SideLinesMembers(rows, cols, n - 1, l);
    }
  }

  lemma {:induction false} EdgeLinesMembers(rows: nat, cols: nat, n: nat, l: Line)
    ensures l in EdgeLines(rows, cols, n) <==> IsEdgeSegment(rows, cols, n, l)
  {
    if n > 0 {
      EdgeLinesMembers(rows, cols, n - 1, l);
    }
  }

  /** Exactly the closed side segments and the full top and bottom edges, all owned by no player. */
  lemma FrameLinesMembers(rows: nat, cols: nat, l: Line)
    ensures l in FrameLines(rows, cols) <==>
              IsSideSegment(rows, cols, rows, l) || IsEdgeSegment(rows, cols, cols, l)
    ensures l in FrameLines(rows, cols) ==> l.player == 0
  {
    SideLinesMembers(rows, cols, rows, l);
    EdgeLinesMembers(rows, cols, cols, l);
  }

  function Min(a: int, b: int): int { if a <= b then a else b }
  function Max(a: int, b: int): int { if a <= b then b else a }

  lemma {:induction false} SideLinesCount(rows: nat, cols: nat, n: nat)
    requires n <= rows
    ensures |SideLines(rows, cols, n)| == 2 * (Min(n, GoalLow(rows)) + Max(0, n - GoalHigh(rows) - 1))
  {
    if n > 0 {
      SideLinesCount(rows, cols, n - 1);
    }
  }

  lemma {:induction false} EdgeLinesCount(rows: nat, cols: nat, n: nat)
    ensures |EdgeLines(rows, cols, n)| == 2 * n
  {
    if n > 0 {
      EdgeLinesCount(rows, cols, n - 1);
    }
  }

  /** 2*cols edge segments plus two side segments per closed row interval. */
  lemma FrameLinesCount(rows: nat, cols: nat)
    requires rows > 0
    ensures |FrameLines(rows, cols)| == 2 * cols + 2 * (GoalLow(rows) + (rows - 1 - GoalHigh(rows)))
  {
    SideLinesCount(rows, cols, rows);
    EdgeLinesCount(rows, cols, cols);
    GoalBandWithinSide(rows);
  }

  lemma {:induction false} SideLinesDistinct(rows: nat, cols: nat, n: nat)
    requires cols > 0
    ensures NoDuplicateSegments(SideLines(rows, cols, n))
  {
    if n > 0 {
      var a := SideLines(rows, cols, n - 1);
      var b := if OutsideGoal(rows, n - 1)
               then [Line(Position(0, n - 1), Position(0, n), 0), Line(Position(cols, n - 1), Position(cols, n), 0)]
               else [];
      SideLinesDistinct(rows, cols, n - 1);
      forall i, j | 0 <= i < |a| && 0 <= j < |b|
        ensures !SameSegment(b[j], a[i].start, a[i].end)
      {
        SideLinesMembers(rows, cols, n - 1, a[i]);
      }
      NoDuplicatesConcat(a, b);
    }
  }

  lemma {:induction false} EdgeLinesDistinct(rows: nat, cols: nat, n: nat)
    requires rows > 0
    ensures NoDuplicateSegments(EdgeLines(rows, cols, n))
  {
    if n > 0 {
      var a := EdgeLines(rows, cols, n - 1);
      var b := [Line(Position(n - 1, 0), Position(n, 0), 0), Line(Position(n - 1, rows), Position(n, rows), 0)];
      EdgeLinesDistinct(rows, cols, n - 1);
      forall i, j | 0 <= i < |a| && 0 <= j < |b|
        ensures !SameSegment(b[j], a[i].start, a[i].end)
      {
        EdgeLinesMembers(rows, cols, n - 1, a[i]);
      }
      NoDuplicatesConcat(a, b);
    }
  }

  /** On a proper field no frame segment is seeded twice. */
  lemma FrameLinesDistinct(rows: nat, cols: nat)
    requires rows > 0 && cols > 0
    ensures NoDuplicateSegments(FrameLines(rows, cols))
  {
    var a := SideLines(rows, cols, rows);
    var b := EdgeLines(rows, cols, cols);
    SideLinesDistinct(rows, cols, rows);
    EdgeLinesDistinct(rows, cols, cols);
    forall i, j | 0 <= i < |a| && 0 <= j < |b|
      ensures !SameSegment(b[j], a[i].start, a[i].end)
    {
      SideLinesMembers(rows, cols, rows, a[i]);
      EdgeLinesMembers(rows, cols, cols, b[j]);
    }
    NoDuplicatesConcat(a, b);
  }

  // ---------------------------------------------------------------------
  // Field-size presets and the index arithmetic of the resize buttons
  // ---------------------------------------------------------------------

  datatype FieldSize = FieldSize(rows: nat, cols: nat)

  const FieldSizes: seq<FieldSize> :=
    [FieldSize(7, 11), FieldSize(9, 13), FieldSize(11, 15), FieldSize(13, 17)]

  /** Array.prototype.findIndex: first index holding `size`, or -1. */
  function IndexOf(sizes: seq<FieldSize>, size: FieldSize): (r: int)
    ensures -1 <= r < |sizes|
    ensures r == -1 <==> size !in sizes
    ensures r >= 0 ==> sizes[r] == size && size !in sizes[..r]
  {
    if |sizes| == 0 then -1
    else if sizes[0] == size then 0
    else
      var k := IndexOf(sizes[1..], size);
      assert sizes[1..][..if k < 0 then 0 else k] == sizes[1..(if k < 0 then 1 else k + 1)];
      if k == -1 then -1 else k + 1
  }

  /** currentSizeIndex. */
  function SizeIndex(rows: nat, cols: nat): int {
    IndexOf(FieldSizes, FieldSize(rows, cols))
  }

  predicate IsPreset(rows: nat, cols: nat) {
    FieldSize(rows, cols) in FieldSizes
  }

  lemma PresetIsProperField(rows: nat, cols: nat)
    requires IsPreset(rows, cols)
    ensures 7 <= rows <= 13 && 11 <= cols <= 17
  {
    var k :| 0 <= k < |FieldSizes| && FieldSizes[k] == FieldSize(rows, cols);
    assert k == 0 || k == 1 || k == 2 || k == 3;
  }

  /** The presets are distinct, so findIndex gives back the index of each one. */
  lemma PresetIndexRoundTrip(k: int)
    requires 0 <= k < |FieldSizes|
    ensures IsPreset(FieldSizes[k].rows, FieldSizes[k].cols)
    ensures SizeIndex(FieldSizes[k].rows, FieldSizes[k].cols) == k
  {
    var r := SizeIndex(FieldSizes[k].rows, FieldSizes[k].cols);
    assert FieldSizes[k] in FieldSizes;
    assert FieldSizes[r] == FieldSizes[k];
  }

  /** The new index of handleResize: one step in `direction`, wrapping at both ends. */
  function WrapIndex(current: int, direction: int, count: nat): (r: int)
    requires count > 0
    ensures 0 <= r < count
    ensures 0 <= current < count && (direction == 1 || direction == -1) ==>
              r == (current + direction) % count
  {
    var k := current + direction;
    var k' := if k < 0 then count - 1 else k;
    if k' >= count then 0 else k'
  }

  /** JavaScript's `%`, which truncates toward zero. */
  function JsRemainder(a: int, b: int): int
    requires b > 0
  {
    if a >= 0 then a % b else -((-a) % b)
  }

  /** Index of the size previewed on the left button. */
  function PreviewPrev(current: int, count: nat): int
    requires count > 0
  {
    JsRemainder(current - 1 + count, count)
  }

  /** Index of the size previewed on the right button. */
  function PreviewNext(current: int, count: nat): int
    requires count > 0
  {
    JsRemainder(current + 1, count)
  }

  /** Each resize button switches to exactly the size its preview shows. */
  lemma PreviewsMatchResize(current: int, count: nat)
    requires 0 <= current < count
    ensures WrapIndex(current, -1, count) == PreviewPrev(current, count)
    ensures WrapIndex(current, 1, count) == PreviewNext(current, count)
  {
    if current == 0 {
      assert current - 1 + count < count;
    } else {
      assert current - 1 + count == count + (current - 1);
    }
    if current == count - 1 {
      assert current + 1 == count;
    } else {
      assert current + 1 < count;
    }
  }
}
