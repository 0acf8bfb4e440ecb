/**
 * The turn engine as state transitions: the state of a fresh game
 * (initializeGame), the effect of an accepted move (makeMove with its
 * win, score and extra-turn resolution) and the invariant both keep.
 */
module Engine {
  import opened Geometry
  import opened Rules

  /** switchPlayer: 1 becomes 2, anything else becomes 1. */
  function Other(player: int): (q: int)
    ensures q == 1 || q == 2
    ensures (player == 1 || player == 2) ==> q != player
  {
    if player == 1 then 2 else 1
  }

  /** State after initializeGame on a rows x cols field; the match score is kept. */
  function Initial(rows: nat, cols: nat, scores: Scores): GameState {
    var c := Center(rows, cols);
    GameState(rows, cols, FrameLines(rows, cols), c, {c}, 1, false, None, scores)
  }

  /** One more goal for `player`. */
  function Bump(scores: Scores, player: int): Scores {
    if player == 1 then scores.(player1 := scores.player1 + 1)
    else scores.(player2 := scores.player2 + 1)
  }

  function TotalScore(scores: Scores): nat { scores.player1 + scores.player2 }

  /** State after makeMove accepts the move to `p`. */
  function Play(s: GameState, p: Position): GameState {
    var won := CheckWin(s, p.x, p.y);
    s.(lines := s.lines + [Line(s.ball, p, s.currentPlayer)],
       ball := p,
       visited := s.visited + {p},
       currentPlayer := if won || p in s.visited then s.currentPlayer else Other(s.currentPlayer),
       gameOver := s.gameOver || won,
       winner := if won then Some(s.currentPlayer) else s.winner,
       scores := if IsGoalScored(s, p.x, p.y) then Bump(s.scores, s.currentPlayer) else s.scores)
  }

  /** The ball's head is the end of the last drawn move, or the kick-off point. */
  predicate BallAtPathHead(s: GameState) {
    if |s.lines| <= |FrameLines(s.rows, s.cols)| then s.ball == Center(s.rows, s.cols)
    else s.ball == s.lines[|s.lines| - 1].end
  }

  /** Drawn lines after the frame belong to a player. */
  predicate MovesOwned(s: GameState) {
    forall k :: |FrameLines(s.rows, s.cols)| <= k < |s.lines| ==>
      s.lines[k].player == 1 || s.lines[k].player == 2
  }

  /** The invariant of a game in progress or finished. */
  ghost predicate Inv(s: GameState) {
    && s.rows > 0 && s.cols > 0
    && InBounds(s.rows, s.cols, s.ball)
    && s.ball in s.visited
    && (forall v :: v in s.visited ==> InBounds(s.rows, s.cols, v))
    && NoDuplicateSegments(s.lines)
    && FrameLines(s.rows, s.cols) <= s.lines
    && BallAtPathHead(s)
    && MovesOwned(s)
    && (s.currentPlayer == 1 || s.currentPlayer == 2)
    && (s.gameOver <==> s.winner.Some?)
    && (s.winner.Some? ==> s.winner.value == 1 || s.winner.value == 2)
  }

  /** A fresh game satisfies the invariant. */
  lemma InitialInv(rows: nat, cols: nat, scores: Scores)
    requires rows > 0 && cols > 0
    ensures Inv(Initial(rows, cols, scores))
  {
    FrameLinesDistinct(rows, cols);
  }

  /** A fresh game: ball and visited set at the kick-off point, player 1 to move, nothing won. */
  lemma InitialState(rows: nat, cols: nat, scores: Scores)
    ensures var s := Initial(rows, cols, scores);
      && s.ball == Position(cols / 2, rows / 2) && s.visited == {s.ball}
      && s.currentPlayer == 1 && !s.gameOver && s.winner == None
      && s.scores == scores && s.lines == FrameLines(rows, cols)
  {
  }

  /**
   * At kick-off nothing but the frame is drawn, so on a field of at least
   * 4 x 4 every neighbour of the centre point is a legal first move.
   */
  lemma KickOffNeighboursLegal(rows: nat, cols: nat, scores: Scores, p: Position)
    requires rows >= 4 && cols >= 4
    requires Chebyshev(Center(rows, cols), p) == 1
    ensures IsValidMove(Initial(rows, cols, scores), p.x, p.y)
  {
    var s := Initial(rows, cols, scores);
    assert s.lines == FrameLines(rows, cols) + [];
    FrameNeverDecides(s, [], p.x, p.y);
    ValidMoveComplete(s.(lines := []), p.x, p.y);
  }

  /** All eight neighbours of the kick-off point are legal first moves. */
  lemma KickOffAllNeighboursLegal(rows: nat, cols: nat, scores: Scores)
    requires rows >= 4 && cols >= 4
    ensures var s := Initial(rows, cols, scores);
      forall x, y :: Chebyshev(s.ball, Position(x, y)) == 1 ==> IsValidMove(s, x, y)
  {
    var s := Initial(rows, cols, scores);
    forall x, y | Chebyshev(s.ball, Position(x, y)) == 1
      ensures IsValidMove(s, x, y)
    {
      KickOffNeighboursLegal(rows, cols, scores, Position(x, y));
    }
  }

  /** Every accepted move keeps the invariant. */
  lemma PlayKeepsInv(s: GameState, p: Position)
    requires Inv(s)
    requires IsValidMove(s, p.x, p.y)
    ensures Inv(Play(s, p))
  {
    var t := Play(s, p);
    var l := Line(s.ball, p, s.currentPlayer);
    NoDuplicatesAppend(s.lines, l);
    assert t.lines[|t.lines| - 1] == l;
    forall k | |FrameLines(t.rows, t.cols)| <= k < |t.lines|
      ensures t.lines[k].player == 1 || t.lines[k].player == 2
    {
      if k < |s.lines| {
        assert t.lines[k] == s.lines[k];
      }
    }
  }

  /** An accepted move draws exactly one new segment, from the old ball to the target, for the mover. */
  lemma PlayDrawsOneLine(s: GameState, p: Position)
    ensures var t := Play(s, p);
      && |t.lines| == |s.lines| + 1
      && s.lines <= t.lines
      && t.lines[|s.lines|] == Line(s.ball, p, s.currentPlayer)
      && t.ball == p && t.visited == s.visited + {p}
      && t.rows == s.rows && t.cols == s.cols
  {
  }

  /** The segment just drawn blocks the way back: the ball can never return along it. */
  lemma NoImmediateReturn(s: GameState, p: Position)
    ensures !IsValidMove(Play(s, p), s.ball.x, s.ball.y)
  {
    var t := Play(s, p);
    assert SameSegment(t.lines[|t.lines| - 1], t.ball, s.ball);
  }

  /**
   * Turn resolution of a move that does not win: the mover keeps the turn
   * exactly when the target had been visited before the move.
   */
  lemma ExtraTurnIffRevisit(s: GameState, p: Position)
    requires s.currentPlayer == 1 || s.currentPlayer == 2
    requires !CheckWin(s, p.x, p.y)
    ensures Play(s, p).currentPlayer == s.currentPlayer <==> p in s.visited
    ensures p !in s.visited ==> Play(s, p).currentPlayer == Other(s.currentPlayer)
    ensures Play(s, p).gameOver == s.gameOver && Play(s, p).winner == s.winner
    ensures Play(s, p).scores == s.scores
  {
  }

  /** A winning move ends the game for the mover, who keeps the turn. */
  lemma WinEndsGame(s: GameState, p: Position)
    requires CheckWin(s, p.x, p.y)
    ensures Play(s, p).gameOver
    ensures Play(s, p).winner == Some(s.currentPlayer)
    ensures Play(s, p).currentPlayer == s.currentPlayer
  {
  }

  /**
   * The match score rises by exactly one, for the mover, when the ball goes
   * into the goal band; graze wins and all other moves leave it unchanged.
   */
  lemma ScoreRisesOnlyOnGoal(s: GameState, p: Position)
    requires s.currentPlayer == 1 || s.currentPlayer == 2
    ensures var t := Play(s, p);
      TotalScore(t.scores) == TotalScore(s.scores) + (if IsGoalScored(s, p.x, p.y) then 1 else 0)
    ensures var t := Play(s, p);
      IsGoalScored(s, p.x, p.y) ==>
        (if s.currentPlayer == 1 then t.scores.player1 == s.scores.player1 + 1 && t.scores.player2 == s.scores.player2
         else t.scores.player2 == s.scores.player2 + 1 && t.scores.player1 == s.scores.player1)
    ensures IsGrazePoint(s, p.x, p.y) ==> Play(s, p).gameOver && Play(s, p).scores == s.scores
  {
  }

  /** Once over, a game stays over: later moves never clear gameOver. */
  lemma GameOverSticks(s: GameState, p: Position)
    requires Inv(s) && s.gameOver
    ensures Play(s, p).gameOver && Play(s, p).winner.Some?
    ensures !CheckWin(s, p.x, p.y) ==> Play(s, p).winner == s.winner
  {
  }
}
