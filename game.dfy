/**
 * The PaperSoccerGame component's state and the handlers that change it.
 * Each useState becomes a field; each handler becomes a method that reads
 * the pre-call values (the closure the handler was created with) and then
 * assigns the fields, and whose postcondition ties the new state to the
 * transitions of the Engine module.
 */
module Game {
  import opened Geometry
  import opened Rules
  import opened Engine
  import opened Ai

  class PaperSoccerGame {
    var rows: nat
    var cols: nat
    var lines: seq<Line>
    var ballPosition: Position
    var visitedPoints: set<Position>
    var currentPlayer: int
    var gameOver: bool
    var winner: Option<int>
    var scores: Scores

    /** The fields as one value. */
    function State(): GameState
      reads this
    {
      GameState(rows, cols, lines, ballPosition, visitedPoints, currentPlayer, gameOver, winner, scores)
    }

    /** The invariant every handler keeps. */
    ghost predicate Valid()
      reads this
    {
      Inv(State())
    }

    /** The field is one of the presets of the resize buttons. */
    ghost predicate OnPreset()
      reads this
    {
      IsPreset(rows, cols)
    }

    /** The initial useState values, then the mount effect's initializeGame. */
    constructor ()
      ensures Valid() && OnPreset()
      ensures State() == Initial(9, 13, Scores(0, 0))
    {
      rows := 9;
      cols := 13;
      scores := Scores(0, 0);
      lines := [];
      ballPosition := Position(0, 0);
      visitedPoints := {};
      currentPlayer := 1;
      gameOver := false;
      winner := None;
      new;
      InitializeGame();
    }

    /** initializeLines: seed the frame, leaving the goal mouths open. */
    method InitializeLines()
      modifies this`lines
      ensures lines == FrameLines(rows, cols)
    {
      var newLines: seq<Line> := [];
      for i := 0 to rows
        invariant newLines == SideLines(rows, cols, i)
      {
        if i < rows / 3 || i > (2 * rows) / 3 {
          newLines := newLines + [Line(Position(0, i), Position(0, i + 1), 0)];
          newLines := newLines + [Line(Position(cols, i), Position(cols, i + 1), 0)];
        }
      }
      for j := 0 to cols
        invariant newLines == SideLines(rows, cols, rows) + EdgeLines(rows, cols, j)
      {
        newLines := newLines + [Line(Position(j, 0), Position(j + 1, 0), 0)];
        newLines := newLines + [Line(Position(j, rows), Position(j + 1, rows), 0)];
      }
      lines := newLines;
    }

    /** initializeGame: a fresh game on the current field; the match score is kept. */
    method InitializeGame()
      requires rows > 0 && cols > 0
      modifies this
      ensures Valid()
      ensures State() == Initial(old(rows), old(cols), old(scores))
    {
      InitializeLines();
      var startX := cols / 2;
      var startY := rows / 2;
      ballPosition := Position(startX, startY);
      visitedPoints := {Position(startX, startY)};
      currentPlayer := 1;
      gameOver := false;
      winner := None;
      InitialInv(rows, cols, scores);
    }

    /** switchPlayer. */
    method SwitchPlayer()
      modifies this`currentPlayer
      ensures currentPlayer == Other(old(currentPlayer))
    {
      currentPlayer := if currentPlayer == 1 then 2 else 1;
    }

    /**
     * makeMove: apply the move to (x, y) if it is legal, resolving a win,
     * the score and the turn; a rejected move changes nothing.
     */
    method MakeMove(x: int, y: int) returns (accepted: bool)
      requires Valid()
      modifies this
      ensures Valid()
      ensures accepted == IsValidMove(old(State()), x, y)
      ensures State() == if accepted then Play(old(State()), Position(x, y)) else old(State())
    {
      var before := State();
      if !IsValidMove(before, x, y) {
        return false;
      }
      var p := Position(x, y);
      lines := lines + [Line(ballPosition, p, currentPlayer)];
      ballPosition := p;
      visitedPoints := visitedPoints + {p};
      if CheckWin(before, x, y) {
        gameOver := true;
        winner := Some(currentPlayer);
        if currentPlayer == 2 && x == 0 && rows / 3 <= y <= (2 * rows) / 3 {
          scores := scores.(player2 := scores.player2 + 1);
        }
        if currentPlayer == 1 && x == cols && rows / 3 <= y <= (2 * rows) / 3 {
          scores := scores.(player1 := scores.player1 + 1);
        }
      } else {
        var playerGetsExtraTurn := p in before.visited;
        if !playerGetsExtraTurn {
          SwitchPlayer();
        }
      }
      accepted := true;
      assert State() == Play(before, p);
      PlayKeepsInv(before, p);
    }

    /** handlePointClick: a click is ignored once the game is over or while the AI is to move. */
    method HandlePointClick(x: int, y: int, aiMode: bool)
      requires Valid()
      modifies this
      ensures Valid()
      ensures old(gameOver) || (aiMode && old(currentPlayer) == 2) ==> State() == old(State())
      ensures !old(gameOver) && !(aiMode && old(currentPlayer) == 2) ==>
                State() == if IsValidMove(old(State()), x, y) then Play(old(State()), Position(x, y)) else old(State())
    {
      if gameOver || (aiMode && currentPlayer == 2) {
        return;
      }
      var _ := MakeMove(x, y);
    }

    /** getAvailableMoves: the legal neighbours of the ball, dx outer and dy inner. */
    method GetAvailableMoves() returns (moves: seq<Position>)
      ensures moves == AvailableMoves(State())
    {
      var s := State();
      moves := [];
      for dx := -1 to 2
        invariant moves == MovesBefore(s, ballPosition.x + dx)
      {
        for dy := -1 to 2
          invariant moves == MovesBefore(s, ballPosition.x + dx) + ColumnMoves(s, ballPosition.x + dx, ballPosition.y + dy)
        {
          if dx == 0 && dy == 0 {
            continue;
          }
          var newX := ballPosition.x + dx;
          var newY := ballPosition.y + dy;
          if IsValidMove(s, newX, newY) {
            moves := moves + [Position(newX, newY)];
          }
        }
      }
    }

    /**
     * makeAIMove: with no legal move only the turn passes; otherwise the
     * strategic or random choice is played, and it is always accepted.
     */
    method MakeAIMove(d: Difficulty, strategicDraw: real, indexDraw: real)
      requires Valid()
      requires 0.0 <= strategicDraw < 1.0 && 0.0 <= indexDraw < 1.0
      modifies this
      ensures Valid()
      ensures var s := old(State());
        |AvailableMoves(s)| == 0 ==> State() == s.(currentPlayer := Other(s.currentPlayer))
      ensures var s := old(State());
        var c := AiChoice(s, d, AvailableMoves(s), strategicDraw, indexDraw);
        |AvailableMoves(s)| > 0 ==>
          c.Some? && IsValidMove(s, c.value.x, c.value.y) && State() == Play(s, c.value)
    {
      var availableMoves := GetAvailableMoves();
      var s := State();
      if |availableMoves| > 0 {
        var selectedMove: Option<Position>;
        if strategicDraw < StrategicThreshold(d) {
          selectedMove := BestMove(availableMoves, GoalColumn(currentPlayer, cols), |availableMoves|);
        } else {
          selectedMove := Some(availableMoves[RandomIndex(indexDraw, |availableMoves|)]);
        }
        assert selectedMove == AiChoice(s, d, availableMoves, strategicDraw, indexDraw);
        AiChoiceIsLegal(s, d, strategicDraw, indexDraw);
        if selectedMove.Some? {
          var accepted := MakeMove(selectedMove.value.x, selectedMove.value.y);
        }
      } else {
        SwitchPlayer();
      }
    }

    /**
     * handleResize: step to the neighbouring preset, wrapping at both ends,
     * and start a fresh game on it; the match score is kept.
     */
    method HandleResize(direction: int)
      modifies this
      ensures Valid() && OnPreset()
      ensures var k := WrapIndex(SizeIndex(old(rows), old(cols)), direction, |FieldSizes|);
        State() == Initial(FieldSizes[k].rows, FieldSizes[k].cols, old(scores)) && SizeIndex(rows, cols) == k
    {
      var currentSizeIndex := SizeIndex(rows, cols);
      var newIndex := currentSizeIndex + direction;
      if newIndex < 0 {
        newIndex := |FieldSizes| - 1;
      }
      if newIndex >= |FieldSizes| {
        newIndex := 0;
      }
      assert newIndex == WrapIndex(currentSizeIndex, direction, |FieldSizes|);
      rows := FieldSizes[newIndex].rows;
      cols := FieldSizes[newIndex].cols;
      PresetIndexRoundTrip(newIndex);
      PresetIsProperField(rows, cols);
      InitializeGame();
    }
  }
}
