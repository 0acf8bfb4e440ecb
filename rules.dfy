/**
 * The game state and the two rule predicates of the engine: move legality
 * (isValidMove) and win detection (checkWin), plus the narrower test that
 * decides whether a win also scores a goal.
 */
module Rules {
  import opened Geometry

  datatype Option<T> = None | Some(value: T)

  datatype Scores = Scores(player1: nat, player2: nat)

  /** The component's per-session state, one field per useState. */
  datatype GameState = GameState(
    rows: nat,
    cols: nat,
    lines: seq<Line>,
    ball: Position,
    visited: set<Position>,
    currentPlayer: int,
    gameOver: bool,
    winner: Option<int>,
    scores: Scores)

  function Abs(n: int): nat { if n < 0 then -n else n }

  /** King-move (Chebyshev) distance. */
  function Chebyshev(a: Position, b: Position): nat {
    Max(Abs(a.x - b.x), Abs(a.y - b.y))
  }

  /** The target lies on the outer frame of the field. */
  predicate IsEdgeMove(rows: nat, cols: nat, x: int, y: int) {
    ((x == 0 || x == cols) && 0 <= y <= rows) || ((y == 0 || y == rows) && 0 <= x <= cols)
  }

  /** The target is on a short side, strictly inside the goal band. */
  predicate InGoalMouth(rows: nat, cols: nat, x: int, y: int) {
    (x == 0 || x == cols) && GoalLow(rows) < y < GoalHigh(rows)
  }

  /** isValidMove: may the ball be moved from its position to (x, y)? */
  function IsValidMove(s: GameState, x: int, y: int): (ok: bool)
    ensures ok ==> InBounds(s.rows, s.cols, Position(x, y))
    ensures ok ==> Chebyshev(s.ball, Position(x, y)) == 1
    ensures ok ==> !LineExists(s.lines, s.ball, Position(x, y))
    ensures ok ==> 0 < y < s.rows
    ensures ok && (x == 0 || x == s.cols) ==> GoalLow(s.rows) < y < GoalHigh(s.rows)
  {
    if x < 0 || x > s.cols || y < 0 || y > s.rows then false
    else if Abs(x - s.ball.x) > 1 || Abs(y - s.ball.y) > 1 then false
    else if x == s.ball.x && y == s.ball.y then false
    else
      var lineExists := LineExists(s.lines, s.ball, Position(x, y));
      var isEdgeMove := IsEdgeMove(s.rows, s.cols, x, y);
      !lineExists && (!isEdgeMove || InGoalMouth(s.rows, s.cols, x, y))
  }

  /**
   * The converse of IsValidMove's postconditions: an in-bounds king move
   * over an undrawn segment whose target is off the frame, or in a goal
   * mouth, is legal.
   */
  lemma ValidMoveComplete(s: GameState, x: int, y: int)
    requires InBounds(s.rows, s.cols, Position(x, y))
    requires Chebyshev(s.ball, Position(x, y)) == 1
    requires !LineExists(s.lines, s.ball, Position(x, y))
    requires (x == 0 || x == s.cols || y == 0 || y == s.rows) ==> InGoalMouth(s.rows, s.cols, x, y)
    ensures IsValidMove(s, x, y)
  {
  }

  /** A legal target is one of the ball's eight neighbours. */
  lemma ValidMoveIsNeighbour(s: GameState, x: int, y: int)
    requires IsValidMove(s, x, y)
    ensures s.ball.x - 1 <= x <= s.ball.x + 1 && s.ball.y - 1 <= y <= s.ball.y + 1
    ensures x != s.ball.x || y != s.ball.y
  {
  }

  /** No point of the top or bottom row, the four corners included, is ever a legal target. */
  lemma NoMoveOntoTopBottomOrCorner(s: GameState, x: int)
    ensures !IsValidMove(s, x, 0) && !IsValidMove(s, x, s.rows)
  {
  }

  /**
   * The frame segments never decide a move: a target that passes the
   * frame rule is never an endpoint of a frame segment, so legality is the
   * same with or without the seeded frame in front of the drawn lines.
   */
  lemma FrameNeverDecides(s: GameState, drawn: seq<Line>, x: int, y: int)
    requires s.lines == FrameLines(s.rows, s.cols) + drawn
    ensures IsValidMove(s, x, y) == IsValidMove(s.(lines := drawn), x, y)
  {
    var p := Position(x, y);
    var frame := FrameLines(s.rows, s.cols);
    LineExistsConcat(frame, drawn, s.ball, p);
    GoalBandWithinSide(s.rows);
    if !IsEdgeMove(s.rows, s.cols, x, y) || InGoalMouth(s.rows, s.cols, x, y) {
      if LineExists(frame, s.ball, p) {
        var i :| 0 <= i < |frame| && SameSegment(frame[i], s.ball, p);
        FrameLinesMembers(s.rows, s.cols, frame[i]);
        assert false;
      }
    }
  }

  /** checkWin, evaluated for the player to move. */
  function CheckWin(s: GameState, x: int, y: int): bool {
    if s.currentPlayer == 2 && x == 0 && GoalLow(s.rows) <= y <= GoalHigh(s.rows) then true
    else if s.currentPlayer == 1 && x == s.cols && GoalLow(s.rows) <= y <= GoalHigh(s.rows) then true
    else if s.currentPlayer == 1 && x == s.cols - 1 && y == GoalHigh(s.rows) + 1 then true
    else if s.currentPlayer == 2 && x == 1 && y == GoalHigh(s.rows) + 1 then true
    else false
  }

  /** The score gate of makeMove: the ball went into the opponent's goal band. */
  predicate IsGoalScored(s: GameState, x: int, y: int) {
    || (s.currentPlayer == 2 && x == 0 && GoalLow(s.rows) <= y <= GoalHigh(s.rows))
    || (s.currentPlayer == 1 && x == s.cols && GoalLow(s.rows) <= y <= GoalHigh(s.rows))
  }

  /** The point one column inside the goal mouth, just below it, that also wins. */
  predicate IsGrazePoint(s: GameState, x: int, y: int) {
    y == GoalHigh(s.rows) + 1 &&
    ((s.currentPlayer == 1 && x == s.cols - 1) || (s.currentPlayer == 2 && x == 1))
  }

  /** A scored goal is a win; the wins that do not score are exactly the graze points. */
  lemma WinsAndGoals(s: GameState, x: int, y: int)
    ensures IsGoalScored(s, x, y) ==> CheckWin(s, x, y)
    ensures CheckWin(s, x, y) && !IsGoalScored(s, x, y) <==> IsGrazePoint(s, x, y)
  {
  }

  /**
   * The closed goal band of checkWin is only reachable strictly inside:
   * a legal scoring move lands on GoalLow < y < GoalHigh.
   */
  lemma LegalGoalsAreStrictlyInside(s: GameState, x: int, y: int)
    requires IsValidMove(s, x, y) && IsGoalScored(s, x, y)
    ensures GoalLow(s.rows) < y < GoalHigh(s.rows)
  {
  }

  /** A player only ever wins next to the opponent's goal: there are no own goals. */
  lemma WinsOnlyAtOpponentGoal(s: GameState, x: int, y: int)
    requires CheckWin(s, x, y)
    ensures s.currentPlayer == 1 ==> x >= s.cols - 1
    ensures s.currentPlayer == 2 ==> x <= 1
    ensures s.currentPlayer == 1 || s.currentPlayer == 2
  {
  }
}
