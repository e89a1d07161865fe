/** The game session of App.tsx: the component's state fields as a class,
    its click handler, the swap and the cascade loop, the end-of-level check
    and the level transitions. */
module Session {
  import opened Types
  import opened Grid
  import opened GameLogic
  import opened Transforms

  // ---------------------------------------------------------------------
  // The end-of-level check and the level order
  // ---------------------------------------------------------------------

  /** The state the end-game effect leaves: nothing happens while a swap or
      a cascade is running; otherwise reaching the target wins the level and
      takes precedence over running out of moves. */
  function Verdict(g: GameState, score: int, movesLeft: int, target: int): (v: GameState)
    ensures v == g || v == LevelComplete || v == GameOver
    ensures g == Processing || g == Swapping ==> v == g
  {
    if g == Processing || g == Swapping then g
    else if score >= target then LevelComplete
    else if movesLeft <= 0 then GameOver
    else g
  }

  /** From Idle the check ends the level exactly when it should, and each
      outcome is justified. */
  lemma VerdictFromIdle(score: int, movesLeft: int, target: int)
    ensures Verdict(Idle, score, movesLeft, target) == Idle <==> score < target && movesLeft > 0
    ensures Verdict(Idle, score, movesLeft, target) == LevelComplete <==> score >= target
    ensures Verdict(Idle, score, movesLeft, target) == GameOver <==> score < target && movesLeft <= 0
  {
  }

  /** Running the check again changes nothing. */
  lemma VerdictIdempotent(g: GameState, score: int, movesLeft: int, target: int)
    ensures Verdict(Verdict(g, score, movesLeft, target), score, movesLeft, target) == Verdict(g, score, movesLeft, target)
  {
  }

  /** handleNextLevel: the following level, or the first after the last. */
  function NextLevelIndex(i: nat): (n: nat)
    requires i < |LEVELS|
    ensures n < |LEVELS|
    ensures n == (i + 1) % |LEVELS|
  {
    if i < |LEVELS| - 1 then i + 1 else 0
  }

  /** The level reached from the first one after `k` level advances. */
  function LevelAfter(k: nat): (i: nat)
    ensures i < |LEVELS|
  {
    if k == 0 then 0 else NextLevelIndex(LevelAfter(k - 1))
  }

  /** The levels are played in table order, cyclically. */
  lemma {:induction false} LevelAfterCycles(k: nat)
    ensures LevelAfter(k) == k % |LEVELS|
  {
    if k > 0 {
      LevelAfterCycles(k - 1);
    }
  }

  // ---------------------------------------------------------------------
  // The start-up effects as the source is written
  // ---------------------------------------------------------------------

  /** The game state after one commit in which the level changes, as the two
      effects are written: both read the state of the render that changed
      the level. `initLevel` enqueues Idle; the end check, reading the old
      score, moves and state against the new target, enqueues LevelComplete
      or GameOver whenever one of its branches fires; the queued updates
      apply in order. */
  function LevelChangeStateAsWritten(renderScore: int, renderMoves: int, renderState: GameState, newTarget: int): (g: GameState)
    ensures g == Idle || g == LevelComplete || g == GameOver
  {
    var fires := renderState != Processing && renderState != Swapping &&
                 (renderScore >= newTarget || renderMoves <= 0);
    var queued := [Idle] + (if fires then [Verdict(renderState, renderScore, renderMoves, newTarget)] else []);
    queued[|queued| - 1]
  }

  /** Outside a swap or a cascade, the new level starts in the verdict that
      the old score and moves get against the new target, not in Idle. */
  lemma LevelChangeStaleVerdict(renderScore: int, renderMoves: int, renderState: GameState, newTarget: int)
    requires renderState != Processing && renderState != Swapping
    ensures var g := LevelChangeStateAsWritten(renderScore, renderMoves, renderState, newTarget);
            (g == LevelComplete <==> renderScore >= newTarget) &&
            (g == GameOver <==> renderScore < newTarget && renderMoves <= 0) &&
            (g == Idle <==> renderScore < newTarget && renderMoves > 0)
  {
  }

  /** At start-up the first render has `movesLeft == 0`, so the end check
      ends the first level before it is played. */
  lemma MountStartsInGameOver()
    ensures LevelChangeStateAsWritten(0, 0, Idle, LEVELS[0].targetScore) == GameOver
  {
  }

  /** Completing the first level with its target score on the last move
      makes the second level, whose target is higher, start in GameOver. */
  lemma LastMoveWinStartsNextInGameOver()
    ensures LevelChangeStateAsWritten(LEVELS[0].targetScore, 0, LevelComplete, LEVELS[1].targetScore) == GameOver
  {
  }

  /** Winning the last level and wrapping to the first: the old score is at
      least the first level's target, so the first level starts already
      complete, whatever the moves left. */
  lemma WrapAfterLastLevelStartsComplete(score: int, moves: int)
    requires score >= LEVELS[|LEVELS| - 1].targetScore
    ensures LevelChangeStateAsWritten(score, moves, LevelComplete, LEVELS[NextLevelIndex(|LEVELS| - 1)].targetScore) == LevelComplete
  {
  }

  // ---------------------------------------------------------------------
  // The cascade loop of processMatches
  // ---------------------------------------------------------------------

  /** One round of the loop keeps its invariant: the cascade still to run
      from the refilled board owes the total minus the points so far. */
  lemma CascadeAdvance(b: Board, refills: seq<Board>, round: nat, combo: nat, nb: Board,
                       total: Outcome, points: int, gained: int)
    requires IsBoard(b) && AllBoards(refills) && round < |refills| && MatchSet(b) != {}
    requires nb == Step(b, refills[round]) && gained == RoundPoints(|MatchSet(b)|, combo)
    requires Cascade(b, refills[round..], combo) == Outcome(total.board, total.points - points, total.settled)
    ensures AllBoards(refills[round + 1..])
    ensures Cascade(nb, refills[round + 1..], combo + 1) == Outcome(total.board, total.points - (points + gained), total.settled)
  {
    var rest := refills[round..];
    assert rest[0] == refills[round] && rest[1..] == refills[round + 1..];
    CascadeUnfold(b, rest, combo);
  }

  /** The loop of processMatches: while the board has matches, score them
      (ten points per cell times the multiplier), clear them, apply gravity
      and refill, the multiplier growing by one per round. Round i refills
      from `refills[i]`; the loop also stops when the draws run out. */
  method RunCascade(currentBoard: Board, refills: seq<Board>) returns (finalBoard: Board, points: int, settled: bool)
    requires IsBoard(currentBoard) && AllBoards(refills)
    ensures Outcome(finalBoard, points, settled) == Cascade(currentBoard, refills, 1)
  {
    ghost var total := Cascade(currentBoard, refills, 1);
    var activeBoard := currentBoard;
    var hasMatches := true;
    var comboMultiplier: nat := 1;
    var round := 0;
    points := 0;
    while hasMatches
      invariant 0 <= round <= |refills| && comboMultiplier == round + 1
      invariant IsBoard(activeBoard) && AllBoards(refills[round..])
      invariant Cascade(activeBoard, refills[round..], comboMultiplier) ==
                Outcome(total.board, total.points - points, total.settled)
      decreases |refills| - round
    {
      var matches := FindMatches(activeBoard);
      if |matches| == 0 {
        hasMatches := false;
        break;
      }
      if round == |refills| {
        break;
      }
      var gained := |matches| * 10 * comboMultiplier;
      assert gained == RoundPoints(|MatchSet(activeBoard)|, comboMultiplier);
      ghost var prev := activeBoard;
      activeBoard := ClearDropRefill(activeBoard, matches, refills[round]);
      CascadeAdvance(prev, refills, round, comboMultiplier, activeBoard, total, points, gained);
      points := points + gained;
      comboMultiplier := comboMultiplier + 1;
      round := round + 1;
    }
    finalBoard := activeBoard;
    settled := !hasMatches;
  }

  // ---------------------------------------------------------------------
  // The session
  // ---------------------------------------------------------------------

  /** The App component's state. */
  class Game {
    var levelIndex: nat
    var board: Board
    var score: int
    var movesLeft: int
    var gameState: GameState
    var selectedPos: Option<Pos>

    /** What holds between user actions: the board is full; outside a
        cascade it has no match; Idle means the level is still being
        played, and the two end states are justified. */
    ghost predicate Valid()
      reads this
    {
      levelIndex < |LEVELS| && IsBoard(board) && NoEmpty(board) &&
      score >= 0 && movesLeft >= 0 &&
      (selectedPos.Some? ==> InBounds(selectedPos.value)) &&
      gameState != Swapping &&
      (gameState != Processing ==> MatchSet(board) == {}) &&
      (gameState == Idle ==> score < LEVELS[levelIndex].targetScore && movesLeft > 0) &&
      (gameState == LevelComplete ==> score >= LEVELS[levelIndex].targetScore) &&
      (gameState == GameOver ==> score < LEVELS[levelIndex].targetScore && movesLeft <= 0)
    }

    /** A fresh level: the state `initLevel` installs. */
    ghost predicate Fresh(lvl: nat)
      reads this
      requires lvl < |LEVELS|
    {
      levelIndex == lvl && IsBoard(board) && NoEmpty(board) && MatchSet(board) == {} &&
      (forall r, c :: 0 <= r < BOARD_SIZE && 0 <= c < BOARD_SIZE ==> board[r][c] in LEVELS[lvl].colors) &&
      score == 0 && movesLeft == LEVELS[lvl].moves && gameState == Idle && selectedPos == None
    }

    /** The initial state, then the mount effects run on it: `initLevel(0)`,
        then the end check on the state it installed. */
    constructor ()
      ensures Valid() && Fresh(0)
    {
      levelIndex := 0;
      board := [];
      score := 0;
      movesLeft := 0;
      gameState := Idle;
      selectedPos := None;
      new;
      InitLevel(0);
      EndCheck();
    }

    /** initLevel: a new board for the level and everything else reset. */
    method InitLevel(lvl: nat)
      requires lvl < |LEVELS| && levelIndex == lvl
      modifies this
      ensures Valid() && Fresh(lvl)
    {
      LevelsWellFormed(lvl);
      var lv := LEVELS[lvl];
      var newBoard := CreateBoard(lv.colors);
      board := newBoard;
      score := 0;
      movesLeft := lv.moves;
      gameState := Idle;
      selectedPos := None;
    }

    /** The end-game effect. */
    method EndCheck()
      requires levelIndex < |LEVELS|
      modifies this
      ensures levelIndex == old(levelIndex) && board == old(board) && score == old(score)
      ensures gameState == Verdict(old(gameState), score, movesLeft, LEVELS[levelIndex].targetScore)
      ensures movesLeft == old(movesLeft) && selectedPos == old(selectedPos)
    {
      if gameState == Processing || gameState == Swapping {
        return;
      }
      if score >= LEVELS[levelIndex].targetScore {
        gameState := LevelComplete;
      } else if movesLeft <= 0 {
        gameState := GameOver;
      }
    }

    /** processMatches: the cascade runs on `currentBoard` (see
        `RunCascade`); the board and score take its results, and the state
        returns to Idle once no match is left. When the draws run out with
        a match left, the state stays Processing. */
    method ProcessMatches(currentBoard: Board, refills: seq<Board>) returns (settled: bool)
      requires levelIndex < |LEVELS| && IsBoard(currentBoard) && NoEmpty(currentBoard)
      requires AllDraws(refills, LEVELS[levelIndex].colors)
      modifies this
      ensures var o := Cascade(currentBoard, refills, 1);
              board == o.board && score == old(score) + o.points && settled == o.settled &&
              gameState == (if o.settled then Idle else Processing)
      ensures NoEmpty(board)
      ensures levelIndex == old(levelIndex) && movesLeft == old(movesLeft) && selectedPos == old(selectedPos)
    {
      gameState := Processing;
      LevelsWellFormed(levelIndex);
      CascadeKeepsFull(currentBoard, refills, 1, LEVELS[levelIndex].colors);
      var finalBoard, points;
      finalBoard, points, settled := RunCascade(currentBoard, refills);
      board := finalBoard;
      score := score + points;
      if settled {
        gameState := Idle;
      }
    }

    /** attemptSwap: the two cells are exchanged; a swap that forms no
        match is swapped back and costs nothing, one that does costs a move
        and runs the cascade. The selection is cleared either way. */
    method AttemptSwap(p1: Pos, p2: Pos, refills: seq<Board>)
      requires levelIndex < |LEVELS| && IsBoard(board) && NoEmpty(board) && InBounds(p1) && InBounds(p2)
      requires AllDraws(refills, LEVELS[levelIndex].colors)
      modifies this
      ensures selectedPos == None && levelIndex == old(levelIndex) && IsBoard(board) && NoEmpty(board)
      ensures MatchSet(Swap(old(board), p1, p2)) == {} ==>
                board == old(board) && movesLeft == old(movesLeft) && score == old(score) && gameState == Idle
      ensures MatchSet(Swap(old(board), p1, p2)) != {} ==>
                var o := Cascade(Swap(old(board), p1, p2), refills, 1);
                movesLeft == old(movesLeft) - 1 && board == o.board && score == old(score) + o.points &&
                gameState == (if o.settled then Idle else Processing)
    {
      ghost var original := board;
      gameState := Swapping;
      selectedPos := None;
      var newBoard := board;
      var temp := newBoard[p1.row][p1.col];
      newBoard := SetCell(newBoard, p1.row, p1.col, newBoard[p2.row][p2.col]);
      newBoard := SetCell(newBoard, p2.row, p2.col, temp);
      board := newBoard;
      assert newBoard == Swap(original, p1, p2);
      SwapKeepsNoEmpty(original, p1, p2);
      var matches := FindMatches(newBoard);
      if |matches| > 0 {
        movesLeft := movesLeft - 1;
        var _ := ProcessMatches(newBoard, refills);
      } else {
        temp := newBoard[p1.row][p1.col];
        newBoard := SetCell(newBoard, p1.row, p1.col, newBoard[p2.row][p2.col]);
        newBoard := SetCell(newBoard, p2.row, p2.col, temp);
        SwapInvolution(original, p1, p2);
        assert newBoard == Swap(Swap(original, p1, p2), p1, p2);
        board := newBoard;
        gameState := Idle;
      }
    }

    /** handleCandyClick, followed by the end check the state change
        triggers. */
    method HandleClick(pos: Pos, refills: seq<Board>)
      requires Valid() && InBounds(pos) && AllDraws(refills, LEVELS[levelIndex].colors)
      modifies this
      ensures Valid()
      ensures old(gameState) != Idle ==> unchanged(this)
      ensures old(gameState) == Idle && old(selectedPos) == None ==>
                selectedPos == Some(pos) && board == old(board) && score == old(score) &&
                movesLeft == old(movesLeft) && gameState == Idle && levelIndex == old(levelIndex)
      ensures old(gameState) == Idle && old(selectedPos) == Some(pos) ==>
                selectedPos == None && board == old(board) && score == old(score) &&
                movesLeft == old(movesLeft) && gameState == Idle && levelIndex == old(levelIndex)
      ensures old(gameState) == Idle && old(selectedPos).Some? && old(selectedPos) != Some(pos) &&
              !AreAdjacent(old(selectedPos).value, pos) ==>
                selectedPos == Some(pos) && board == old(board) && score == old(score) &&
                movesLeft == old(movesLeft) && gameState == Idle && levelIndex == old(levelIndex)
      ensures old(gameState) == Idle && old(selectedPos).Some? && old(selectedPos) != Some(pos) &&
              AreAdjacent(old(selectedPos).value, pos) ==>
                var sw := Swap(old(board), old(selectedPos).value, pos);
                selectedPos == None && levelIndex == old(levelIndex) &&
                (MatchSet(sw) == {} ==>
                   board == old(board) && movesLeft == old(movesLeft) && score == old(score) && gameState == Idle) &&
                (MatchSet(sw) != {} ==>
                   var o := Cascade(sw, refills, 1);
                   movesLeft == old(movesLeft) - 1 && board == o.board && score == old(score) + o.points &&
                   gameState == Verdict(if o.settled then Idle else Processing, score, movesLeft, LEVELS[levelIndex].targetScore))
    {
      if gameState != Idle {
        return;
      }
      if selectedPos.None? {
        selectedPos := Some(pos);
        return;
      }
      var sel := selectedPos.value;
      if sel.row == pos.row && sel.col == pos.col {
        selectedPos := None;
        return;
      }
      if AreAdjacent(sel, pos) {
        AttemptSwap(sel, pos, refills);
        EndCheck();
      } else {
        selectedPos := Some(pos);
      }
    }

    /** handleRetry: the same level from scratch. */
    method Retry()
      requires Valid()
      modifies this
      ensures Valid() && Fresh(old(levelIndex))
    {
      InitLevel(levelIndex);
    }

    /** handleNextLevel: the next level of the table, or the first after the
        last; the level change then runs `initLevel` and the end check on
        the state it installed. */
    method NextLevel()
      requires Valid()
      modifies this
      ensures Valid() && Fresh(NextLevelIndex(old(levelIndex)))
    {
      if levelIndex < |LEVELS| - 1 {
        levelIndex := levelIndex + 1;
      } else {
        levelIndex := 0;
      }
      InitLevel(levelIndex);
      EndCheck();
    }
  }
}
