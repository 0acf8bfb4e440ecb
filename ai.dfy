/**
 * The one-ply automated opponent: the list of legal moves from the ball
 * (getAvailableMoves), the heuristic fold that picks the best of them
 * (getBestMove) and the strategic-or-random choice of makeAIMove, with the
 * two Math.random() draws supplied by the caller.
 */
module Ai {
  import opened Geometry
  import opened Rules
  import opened Engine

  /** The point (x, y) when it is a legal target; nothing for the ball itself. */
  function Step(s: GameState, x: int, y: int): seq<Position> {
    if x == s.ball.x && y == s.ball.y then []
    else if IsValidMove(s, x, y) then [Position(x, y)]
    else []
  }

  /**
   * What the inner loop has pushed for column x once y has run from the row
   * above the ball up to, not including, yEnd.
   */
  function ColumnMoves(s: GameState, x: int, yEnd: int): seq<Position>
    requires s.ball.y - 1 <= yEnd
    decreases yEnd - s.ball.y
  {
    if yEnd == s.ball.y - 1 then [] else ColumnMoves(s, x, yEnd - 1) + Step(s, x, yEnd - 1)
  }

  /** What the outer loop has pushed once x has run from the column left of the ball up to xEnd. */
  function MovesBefore(s: GameState, xEnd: int): seq<Position>
    requires s.ball.x - 1 <= xEnd
    decreases xEnd - s.ball.x
  {
    if xEnd == s.ball.x - 1 then [] else MovesBefore(s, xEnd - 1) + ColumnMoves(s, xEnd - 1, s.ball.y + 2)
  }

  /** getAvailableMoves: the legal neighbours of the ball, dx outer and dy inner. */
  function AvailableMoves(s: GameState): seq<Position> {
    MovesBefore(s, s.ball.x + 2)
  }

  /** Dictionary order on (x, y): the order the two loops visit the neighbours. */
  predicate LexLess(a: Position, b: Position) {
    a.x < b.x || (a.x == b.x && a.y < b.y)
  }

  predicate StrictlyOrdered(ps: seq<Position>) {
    forall i, j :: 0 <= i < j < |ps| ==> LexLess(ps[i], ps[j])
  }

  lemma OrderedConcat(a: seq<Position>, b: seq<Position>)
    requires StrictlyOrdered(a) && StrictlyOrdered(b)
    requires forall i, j :: 0 <= i < |a| && 0 <= j < |b| ==> LexLess(a[i], b[j])
    ensures StrictlyOrdered(a + b)
  {
    var s := a + b;
    forall i, j | 0 <= i < j < |s|
      ensures LexLess(s[i], s[j])
    {
      if i >= |a| {
        assert s[i] == b[i - |a|] && s[j] == b[j - |a|];
      } else if j >= |a| {
        assert s[i] == a[i] && s[j] == b[j - |a|];
      }
    }
  }

  lemma {:induction false} ColumnMovesMembers(s: GameState, x: int, yEnd: int, p: Position)
    requires s.ball.y - 1 <= yEnd
    ensures p in ColumnMoves(s, x, yEnd) <==> p.x == x && p.y < yEnd && IsValidMove(s, p.x, p.y)
    decreases yEnd - s.ball.y
  {
    if yEnd > s.ball.y - 1 {
      ColumnMovesMembers(s, x, yEnd - 1, p);
    }
  }

  lemma {:induction false} MovesBeforeMembers(s: GameState, xEnd: int, p: Position)
    requires s.ball.x - 1 <= xEnd
    ensures p in MovesBefore(s, xEnd) <==> p.x < xEnd && IsValidMove(s, p.x, p.y)
    decreases xEnd - s.ball.x
  {
    if xEnd > s.ball.x - 1 {
      var a := MovesBefore(s, xEnd - 1);
      var b := ColumnMoves(s, xEnd - 1, s.ball.y + 2);
      assert MovesBefore(s, xEnd) == a + b;
      assert p in a + b <==> p in a || p in b;
      MovesBeforeMembers(s, xEnd - 1, p);
      ColumnMovesMembers(s, xEnd - 1, s.ball.y + 2, p);
      if p.x == xEnd - 1 && IsValidMove(s, p.x, p.y) {
        ValidMoveIsNeighbour(s, p.x, p.y);
        assert p in b;
      }
    }
  }

  /** The list holds exactly the legal targets. */
  lemma AvailableMovesExact(s: GameState, p: Position)
    ensures p in AvailableMoves(s) <==> IsValidMove(s, p.x, p.y)
  {
    MovesBeforeMembers(s, s.ball.x + 2, p);
  }

  lemma {:induction false} ColumnMovesOrdered(s: GameState, x: int, yEnd: int)
    requires s.ball.y - 1 <= yEnd
    ensures StrictlyOrdered(ColumnMoves(s, x, yEnd))
    decreases yEnd - s.ball.y
  {
    if yEnd > s.ball.y - 1 {
      var a := ColumnMoves(s, x, yEnd - 1);
      ColumnMovesOrdered(s, x, yEnd - 1);
      forall i | 0 <= i < |a|
        ensures a[i].x == x && a[i].y < yEnd - 1
      {
        ColumnMovesMembers(s, x, yEnd - 1, a[i]);
      }
      OrderedConcat(a, Step(s, x, yEnd - 1));
    }
  }

  lemma {:induction false} MovesBeforeOrdered(s: GameState, xEnd: int)
    requires s.ball.x - 1 <= xEnd
    ensures StrictlyOrdered(MovesBefore(s, xEnd))
    decreases xEnd - s.ball.x
  {
    if xEnd > s.ball.x - 1 {
      var a := MovesBefore(s, xEnd - 1);
      var b := ColumnMoves(s, xEnd - 1, s.ball.y + 2);
      MovesBeforeOrdered(s, xEnd - 1);
      ColumnMovesOrdered(s, xEnd - 1, s.ball.y + 2);
      forall i, j | 0 <= i < |a| && 0 <= j < |b|
        ensures LexLess(a[i], b[j])
      {
        MovesBeforeMembers(s, xEnd - 1, a[i]);
        ColumnMovesMembers(s, xEnd - 1, s.ball.y + 2, b[j]);
      }
      OrderedConcat(a, b);
    }
  }

  /**
   * The list is in dx-outer, dy-inner order, that is strictly increasing in
   * dictionary order, so it holds no position twice.
   */
  lemma AvailableMovesOrdered(s: GameState)
    ensures StrictlyOrdered(AvailableMoves(s))
    ensures forall i, j :: 0 <= i < j < |AvailableMoves(s)| ==> AvailableMoves(s)[i] != AvailableMoves(s)[j]
  {
    MovesBeforeOrdered(s, s.ball.x + 2);
  }

  lemma {:induction false} ColumnMovesCount(s: GameState, x: int, yEnd: int)
    requires s.ball.y - 1 <= yEnd
    ensures |ColumnMoves(s, x, yEnd)| <= yEnd - s.ball.y + 1 - (if x == s.ball.x && yEnd > s.ball.y then 1 else 0)
    decreases yEnd - s.ball.y
  {
    if yEnd > s.ball.y - 1 {
      ColumnMovesCount(s, x, yEnd - 1);
    }
  }

  /** At most the eight king-move neighbours. */
  lemma AvailableMovesAtMostEight(s: GameState)
    ensures |AvailableMoves(s)| <= 8
  {
    var x, y := s.ball.x, s.ball.y;
    ColumnMovesCount(s, x - 1, y + 2);
    ColumnMovesCount(s, x, y + 2);
    ColumnMovesCount(s, x + 1, y + 2);
    assert MovesBefore(s, x) == ColumnMoves(s, x - 1, y + 2);
    assert MovesBefore(s, x + 1) == MovesBefore(s, x) + ColumnMoves(s, x, y + 2);
    assert AvailableMoves(s) == MovesBefore(s, x + 1) + ColumnMoves(s, x + 1, y + 2);
  }

  /** When every neighbour in column x is legal, the inner loop pushes all of them, bottom to top. */
  lemma ColumnOfLegalMoves(s: GameState, x: int)
    requires forall y :: s.ball.y - 1 <= y <= s.ball.y + 1 && (x != s.ball.x || y != s.ball.y) ==> IsValidMove(s, x, y)
    ensures ColumnMoves(s, x, s.ball.y + 2) ==
              if x == s.ball.x then [Position(x, s.ball.y - 1), Position(x, s.ball.y + 1)]
              else [Position(x, s.ball.y - 1), Position(x, s.ball.y), Position(x, s.ball.y + 1)]
  {
    var y := s.ball.y;
    assert ColumnMoves(s, x, y) == Step(s, x, y - 1);
    assert ColumnMoves(s, x, y + 1) == ColumnMoves(s, x, y) + Step(s, x, y);
    assert ColumnMoves(s, x, y + 2) == ColumnMoves(s, x, y + 1) + Step(s, x, y + 1);
  }

  /** When all eight neighbours of the ball are legal, the list holds them all, in loop order. */
  lemma AllNeighboursListed(s: GameState)
    requires forall x, y :: Chebyshev(s.ball, Position(x, y)) == 1 ==> IsValidMove(s, x, y)
    ensures var x, y := s.ball.x, s.ball.y;
      AvailableMoves(s) ==
        [Position(x - 1, y - 1), Position(x - 1, y), Position(x - 1, y + 1),
         Position(x, y - 1), Position(x, y + 1),
         Position(x + 1, y - 1), Position(x + 1, y), Position(x + 1, y + 1)]
  {
    var x, y := s.ball.x, s.ball.y;
    assert Chebyshev(s.ball, Position(x - 1, y)) == 1;
    ColumnOfLegalMoves(s, x - 1);
    ColumnOfLegalMoves(s, x);
    ColumnOfLegalMoves(s, x + 1);
    var left := [Position(x - 1, y - 1), Position(x - 1, y), Position(x - 1, y + 1)];
    var middle := [Position(x, y - 1), Position(x, y + 1)];
    var right := [Position(x + 1, y - 1), Position(x + 1, y), Position(x + 1, y + 1)];
    assert MovesBefore(s, x) == left;
    assert MovesBefore(s, x + 1) == left + middle;
    assert AvailableMoves(s) == left + middle + right;
  }

  /** At kick-off the list holds all eight neighbours of the centre, in loop order. */
  lemma KickOffMoves(rows: nat, cols: nat, scores: Scores)
    requires rows >= 4 && cols >= 4
    ensures var s := Initial(rows, cols, scores);
      var x, y := s.ball.x, s.ball.y;
      AvailableMoves(s) ==
        [Position(x - 1, y - 1), Position(x - 1, y), Position(x - 1, y + 1),
         Position(x, y - 1), Position(x, y + 1),
         Position(x + 1, y - 1), Position(x + 1, y), Position(x + 1, y + 1)]
  {
    KickOffAllNeighboursLegal(rows, cols, scores);
    AllNeighboursListed(Initial(rows, cols, scores));
  }

  // ---------------------------------------------------------------------
  // getBestMove
  // ---------------------------------------------------------------------

  /** Column of the goal the player attacks. */
  function GoalColumn(player: int, cols: nat): int {
    if player == 1 then cols else 0
  }

  /** distanceToGoal * 2 + movesAfter. */
  function MoveScore(p: Position, goalX: int, movesAfter: int): int {
    Abs(p.x - goalX) * 2 + movesAfter
  }

  datatype Scored = Scored(move: Position, score: int)

  /** The reducer of getBestMove: keep the first candidate with the strictly lowest score. */
  function Reduce(moves: seq<Position>, goalX: int, movesAfter: int, best: Option<Scored>): Option<Scored>
  {
    if moves == [] then best
    else
      var m := moves[0];
      var score := MoveScore(m, goalX, movesAfter);
      var next := if best.None? || score < best.value.score then Some(Scored(m, score)) else best;
      Reduce(moves[1..], goalX, movesAfter, next)
  }

  /** getBestMove; `|| availableMoves[0]` is the fallback when the fold yields null. */
  function BestMove(moves: seq<Position>, goalX: int, movesAfter: int): Option<Position> {
    match Reduce(moves, goalX, movesAfter, None)
    case Some(b) => Some(b.move)
    case None => if |moves| > 0 then Some(moves[0]) else None
  }

  /**
   * What the fold returns: either the accumulator it started from (k = -1,
   * nothing scores lower) or the first candidate k scoring strictly below
   * it and below everything before k, and no higher than anything after.
   */
  lemma {:induction false} ReduceChoice(moves: seq<Position>, goalX: int, movesAfter: int, best: Option<Scored>)
    returns (k: int)
    requires best.Some? || |moves| > 0
    ensures -1 <= k < |moves|
    ensures k == -1 ==>
              && best.Some? && Reduce(moves, goalX, movesAfter, best) == best
              && (forall i :: 0 <= i < |moves| ==> MoveScore(moves[i], goalX, movesAfter) >= best.value.score)
    ensures k >= 0 ==>
              && Reduce(moves, goalX, movesAfter, best) == Some(Scored(moves[k], MoveScore(moves[k], goalX, movesAfter)))
              && (best.Some? ==> MoveScore(moves[k], goalX, movesAfter) < best.value.score)
              && (forall i :: 0 <= i < k ==> MoveScore(moves[i], goalX, movesAfter) > MoveScore(moves[k], goalX, movesAfter))
              && (forall i :: k < i < |moves| ==> MoveScore(moves[i], goalX, movesAfter) >= MoveScore(moves[k], goalX, movesAfter))
  {
    if moves == [] {
      k := -1;
    } else {
      var m := moves[0];
      var score := MoveScore(m, goalX, movesAfter);
      var next := if best.None? || score < best.value.score then Some(Scored(m, score)) else best;
      var rest := moves[1..];
      var k' := ReduceChoice(rest, goalX, movesAfter, next);
      if k' == -1 {
        k := if next == best then -1 else 0;
      } else {
        k := k' + 1;
      }
      assert forall i :: 0 < i < |moves| ==> moves[i] == rest[i - 1];
    }
  }

  /**
   * getBestMove returns the first candidate closest to the attacked goal
   * column; the movesAfter term, the same for every candidate, never
   * changes the choice.
   */
  lemma BestMoveIsFirstClosest(moves: seq<Position>, goalX: int, movesAfter: int) returns (k: nat)
    requires |moves| > 0
    ensures k < |moves| && BestMove(moves, goalX, movesAfter) == Some(moves[k])
    ensures forall i :: 0 <= i < |moves| ==> Abs(moves[k].x - goalX) <= Abs(moves[i].x - goalX)
    ensures forall i :: 0 <= i < k ==> Abs(moves[i].x - goalX) > Abs(moves[k].x - goalX)
  {
    var j := ReduceChoice(moves, goalX, movesAfter, None);
    k := j;
  }

  lemma BestMoveInMoves(moves: seq<Position>, goalX: int, movesAfter: int)
    ensures BestMove(moves, goalX, movesAfter).Some? <==> |moves| > 0
    ensures BestMove(moves, goalX, movesAfter).Some? ==> BestMove(moves, goalX, movesAfter).value in moves
  {
    if |moves| > 0 {
      var k := BestMoveIsFirstClosest(moves, goalX, movesAfter);
    }
  }

  // ---------------------------------------------------------------------
  // makeAIMove's choice
  // ---------------------------------------------------------------------

  datatype Difficulty = Easy | Medium

  /** Below this draw the AI plays the heuristic move (0.8 on medium, 0.2 otherwise). */
  function StrategicThreshold(d: Difficulty): real {
    if d == Medium then 0.8 else 0.2
  }

  lemma PositiveProduct(a: real, b: real)
    requires a > 0.0 && b > 0.0
    ensures a * b > 0.0
  {
  }

  /** Math.floor(draw * n): a uniformly drawn index. */
  function RandomIndex(draw: real, n: nat): (i: int)
    requires 0.0 <= draw < 1.0 && n > 0
    ensures 0 <= i < n
  {
    var r := draw * (n as real);
    assert 0.0 <= r < n as real by {
      assert (n as real) - r == (1.0 - draw) * (n as real);
      assert 1.0 - draw > 0.0 && n as real > 0.0;
      PositiveProduct(1.0 - draw, n as real);
    }
    r.Floor
  }

  /**
   * The move makeAIMove plays, or None when no move is available. The two
   * Math.random() results are `strategicDraw` and `indexDraw`.
   */
  function AiChoice(s: GameState, d: Difficulty, moves: seq<Position>, strategicDraw: real, indexDraw: real): Option<Position>
    requires 0.0 <= strategicDraw < 1.0 && 0.0 <= indexDraw < 1.0
  {
    if |moves| == 0 then None
    else if strategicDraw < StrategicThreshold(d) then
      BestMove(moves, GoalColumn(s.currentPlayer, s.cols), |AvailableMoves(s)|)
    else Some(moves[RandomIndex(indexDraw, |moves|)])
  }

  /** The AI plays some move whenever one is available, and always one of the list. */
  lemma AiChoiceInMoves(s: GameState, d: Difficulty, moves: seq<Position>, strategicDraw: real, indexDraw: real)
    requires 0.0 <= strategicDraw < 1.0 && 0.0 <= indexDraw < 1.0
    ensures AiChoice(s, d, moves, strategicDraw, indexDraw).Some? <==> |moves| > 0
    ensures AiChoice(s, d, moves, strategicDraw, indexDraw).Some? ==>
              AiChoice(s, d, moves, strategicDraw, indexDraw).value in moves
  {
    BestMoveInMoves(moves, GoalColumn(s.currentPlayer, s.cols), |AvailableMoves(s)|);
  }

  /** With a single candidate the AI plays it, at any difficulty and for any draws. */
  lemma SingleCandidateIsPlayed(s: GameState, d: Difficulty, m: Position, strategicDraw: real, indexDraw: real)
    requires 0.0 <= strategicDraw < 1.0 && 0.0 <= indexDraw < 1.0
    ensures AiChoice(s, d, [m], strategicDraw, indexDraw) == Some(m)
  {
    BestMoveInMoves([m], GoalColumn(s.currentPlayer, s.cols), |AvailableMoves(s)|);
  }

  /** The AI's choice from the available moves is always a legal move. */
  lemma AiChoiceIsLegal(s: GameState, d: Difficulty, strategicDraw: real, indexDraw: real)
    requires 0.0 <= strategicDraw < 1.0 && 0.0 <= indexDraw < 1.0
    ensures var c := AiChoice(s, d, AvailableMoves(s), strategicDraw, indexDraw);
      c.Some? ==> IsValidMove(s, c.value.x, c.value.y)
  {
    var c := AiChoice(s, d, AvailableMoves(s), strategicDraw, indexDraw);
    AiChoiceInMoves(s, d, AvailableMoves(s), strategicDraw, indexDraw);
    if c.Some? {
      AvailableMovesExact(s, c.value);
    }
  }
}
