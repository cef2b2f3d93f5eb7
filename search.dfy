/**
 * The computer's search: a reference minimax value of a board, the alpha-beta
 * pruned search that the widget runs (proved to agree with the reference), and
 * the root loop that picks the computer's cell on the "impossible" level.
 *
 * Values are from the point of view of the side about to move only at the
 * leaves: a won board scores winner * player, where player is the side whose
 * turn it would be. Inside the tree Computer maximises and Human minimises.
 */
module SearchEngine {
  import opened BoardModel

  function Max(a: int, b: int): int { if a < b then b else a }
  function Min(a: int, b: int): int { if a < b then a else b }
  function Abs(a: int): nat { if a < 0 then -a else a }

  /** A value seen through the search window [lo, hi]. */
  function Clamp(v: int, lo: int, hi: int): int { Min(Max(v, lo), hi) }

  /**
   * The plain minimax value of board b with p to move: the leaf rule of the
   * widget on a board with a winner, 0 on a full board without one, otherwise
   * the best child value for p (largest for Computer, smallest for Human).
   */
  function Minimax(b: Board, p: Cell): (v: int)
    requires p != Blank
    ensures -1 <= v <= 1
    ensures GetWinner(b).Some? ==> (v == 1 <==> GetWinner(b).value == p) && v != 0
    decreases BlanksFrom(b, 0), 1, 0
  {
    match GetWinner(b)
    case Some(w) => Value(w) * Value(p)
    case None =>
      if BlanksFrom(b, 0) == 0 then 0
      else if p == Computer then MaxChild(b, 0)
      else MinChild(b, 0)
  }

  /** The largest value, for Human to move, of Computer playing a Blank cell at index x..8. */
  function MaxChild(b: Board, x: nat): (v: int)
    requires x <= 9 && BlanksFrom(b, x) > 0
    ensures -1 <= v <= 1
    decreases BlanksFrom(b, 0), 0, 9 - x
  {
    if b[x] != Blank then MaxChild(b, x + 1)
    else
      MarkingRemovesOneBlank(b, x, Computer, 0);
      var c := Minimax(GetPossibleBoard(Computer, x, b), Human);
      if BlanksFrom(b, x + 1) == 0 then c else Max(c, MaxChild(b, x + 1))
  }

  /** The smallest value, for Computer to move, of Human playing a Blank cell at index x..8. */
  function MinChild(b: Board, x: nat): (v: int)
    requires x <= 9 && BlanksFrom(b, x) > 0
    ensures -1 <= v <= 1
    decreases BlanksFrom(b, 0), 0, 9 - x
  {
    if b[x] != Blank then MinChild(b, x + 1)
    else
      MarkingRemovesOneBlank(b, x, Human, 0);
      var c := Minimax(GetPossibleBoard(Human, x, b), Computer);
      if BlanksFrom(b, x + 1) == 0 then c else Min(c, MinChild(b, x + 1))
  }

  /** The value of Computer playing the Blank cell i, as the root loop scores it. */
  function MoveScore(b: Board, i: int): int
    requires 0 <= i < 9 && b[i] == Blank
  {
    Minimax(GetPossibleBoard(Computer, i, b), Human)
  }

  /** The value of Human playing the Blank cell i, as the minimising loop scores it. */
  function ReplyScore(b: Board, i: int): int
    requires 0 <= i < 9 && b[i] == Blank
  {
    Minimax(GetPossibleBoard(Human, i, b), Computer)
  }

  /**
   * m is the cell the root loop settles on: a Blank cell with the largest
   * score, and the lowest such index.
   */
  ghost predicate IsBestMove(b: Board, m: int)
  {
    0 <= m < 9 && b[m] == Blank &&
    (forall i :: 0 <= i < 9 && b[i] == Blank ==> MoveScore(b, i) <= MoveScore(b, m)) &&
    (forall i :: 0 <= i < m && b[i] == Blank ==> MoveScore(b, i) < MoveScore(b, m))
  }

  // What is left for the maximising loop to see from cell x on, with best so far.
  ghost function MaxWith(best: int, b: Board, x: nat): int
    requires x <= 9
  {
    if BlanksFrom(b, x) == 0 then best else Max(best, MaxChild(b, x))
  }

  // What is left for the minimising loop to see from cell x on, with best so far.
  ghost function MinWith(best: int, b: Board, x: nat): int
    requires x <= 9
  {
    if BlanksFrom(b, x) == 0 then best else Min(best, MinChild(b, x))
  }

  // One step of the maximising loop keeps the clamped value of what remains.
  lemma MaxStep(alpha: int, beta: int, best: int, r: int, c: int, t: int)
    requires best == -2 || -1 <= best <= 1
    requires -1 <= r <= 1 && -1 <= c <= 1
    requires var a := if best == -2 then alpha else Max(alpha, best);
      Clamp(r, a, beta) == Clamp(c, a, beta)
    ensures Clamp(Max(best, r), alpha, beta) == Clamp(Max(best, c), alpha, beta)
    ensures Clamp(Max(Max(best, r), t), alpha, beta) == Clamp(Max(Max(best, c), t), alpha, beta)
  {
  }

  // One step of the minimising loop keeps the clamped value of what remains.
  lemma MinStep(alpha: int, beta: int, best: int, r: int, c: int, t: int)
    requires best == 2 || -1 <= best <= 1
    requires -1 <= r <= 1 && -1 <= c <= 1
    requires var b := if best == 2 then beta else Min(beta, best);
      Clamp(r, alpha, b) == Clamp(c, alpha, b)
    ensures Clamp(Min(best, r), alpha, beta) == Clamp(Min(best, c), alpha, beta)
    ensures Clamp(Min(Min(best, r), t), alpha, beta) == Clamp(Min(Min(best, c), t), alpha, beta)
  {
  }

  // A child of the maximising loop examined: the invariant moves from x to x + 1,
  // and when the window closes the best score already has the final clamped value.
  lemma MaxLoopStep(board: Board, x: int, best: int, r: int, alpha: int, beta: int)
    requires 0 <= x < 9 && board[x] == Blank
    requires best == -2 || -1 <= best <= 1
    requires -1 <= r <= 1
    requires var a := if best == -2 then alpha else Max(alpha, best);
      Clamp(r, a, beta) == Clamp(MoveScore(board, x), a, beta)
    ensures Clamp(MaxWith(Max(best, r), board, x + 1), alpha, beta)
         == Clamp(MaxWith(best, board, x), alpha, beta)
    ensures beta <= Max(alpha, Max(best, r)) ==>
      Clamp(Max(best, r), alpha, beta) == Clamp(MaxWith(best, board, x), alpha, beta)
  {
    var c := MoveScore(board, x);
    assert MaxWith(best, board, x) == MaxWith(Max(best, c), board, x + 1);
    MaxStep(alpha, beta, best, r, c,
            if BlanksFrom(board, x + 1) == 0 then -2 else MaxChild(board, x + 1));
  }

  // A child of the minimising loop examined: the mirror image of MaxLoopStep.
  lemma MinLoopStep(board: Board, x: int, best: int, r: int, alpha: int, beta: int)
    requires 0 <= x < 9 && board[x] == Blank
    requires best == 2 || -1 <= best <= 1
    requires -1 <= r <= 1
    requires var b := if best == 2 then beta else Min(beta, best);
      Clamp(r, alpha, b) == Clamp(ReplyScore(board, x), alpha, b)
    ensures Clamp(MinWith(Min(best, r), board, x + 1), alpha, beta)
         == Clamp(MinWith(best, board, x), alpha, beta)
    ensures Min(beta, Min(best, r)) <= alpha ==>
      Clamp(Min(best, r), alpha, beta) == Clamp(MinWith(best, board, x), alpha, beta)
  {
    var c := ReplyScore(board, x);
    assert MinWith(best, board, x) == MinWith(Min(best, c), board, x + 1);
    MinStep(alpha, beta, best, r, c,
            if BlanksFrom(board, x + 1) == 0 then 2 else MinChild(board, x + 1));
  }

  // The maximising loop's best score, normalised as the search returns it.
  lemma MaxLoopResult(board: Board, best: int, alpha: int, beta: int)
    requires GetWinner(board).None?
    requires best == -2 || -1 <= best <= 1
    requires best == -2 <==> forall i :: 0 <= i < 9 ==> board[i] != Blank
    requires Clamp(best, alpha, beta) == Clamp(MaxWith(-2, board, 0), alpha, beta)
    ensures var score := if Abs(best) < 2 then best else 0;
      && -1 <= score <= 1
      && Clamp(score, alpha, beta) == Clamp(Minimax(board, Computer), alpha, beta)
      && (alpha < -1 && 1 < beta ==> score == Minimax(board, Computer))
      && (BlanksFrom(board, 0) == 0 ==> score == 0)
  {
  }

  // The minimising loop's best score, normalised as the search returns it.
  lemma MinLoopResult(board: Board, best: int, alpha: int, beta: int)
    requires GetWinner(board).None?
    requires best == 2 || -1 <= best <= 1
    requires best == 2 <==> forall i :: 0 <= i < 9 ==> board[i] != Blank
    requires Clamp(best, alpha, beta) == Clamp(MinWith(2, board, 0), alpha, beta)
    ensures var score := if Abs(best) < 2 then best else 0;
      && -1 <= score <= 1
      && Clamp(score, alpha, beta) == Clamp(Minimax(board, Human), alpha, beta)
      && (alpha < -1 && 1 < beta ==> score == Minimax(board, Human))
      && (BlanksFrom(board, 0) == 0 ==> score == 0)
  {
  }

  /**
   * calcAlphaBetaPrunning. Whatever the window, the score agrees with the
   * plain minimax value once both are clamped to [alpha, beta]; with a window
   * wider than [-1, 1] (the root call uses -2, +2) it is the minimax value.
   */
  method CalcAlphaBetaPruning(board: Board, player: Cell, alpha: int, beta: int) returns (score: int)
    requires player != Blank
    ensures -1 <= score <= 1
    ensures Clamp(score, alpha, beta) == Clamp(Minimax(board, player), alpha, beta)
    ensures alpha < -1 && 1 < beta ==> score == Minimax(board, player)
    ensures GetWinner(board).Some? ==> score == Value(GetWinner(board).value) * Value(player)
    ensures GetWinner(board).None? && BlanksFrom(board, 0) == 0 ==> score == 0
    decreases BlanksFrom(board, 0), 1
  {
    var winner := GetWinner(board);
    if winner.Some? {
      return Value(winner.value) * Value(player);
    }

    var bestScore: int;
    if player == Computer {
      bestScore := MaximizingPass(board, alpha, beta);
      MaxLoopResult(board, bestScore, alpha, beta);
    } else {
      bestScore := MinimizingPass(board, alpha, beta);
      MinLoopResult(board, bestScore, alpha, beta);
    }

    score := if Abs(bestScore) < 2 then bestScore else 0;
  }

  /**
   * The Computer branch of calcAlphaBetaPrunning: the loop over the Blank cells
   * that raises bestScore (from -2) and alpha, and stops once beta <= alpha.
   * Seen through the window, bestScore is the largest child value; it stays -2
   * only on a board without a Blank cell.
   */
  method MaximizingPass(board: Board, alpha: int, beta: int) returns (bestScore: int)
    ensures bestScore == -2 || -1 <= bestScore <= 1
    ensures bestScore == -2 <==> forall i :: 0 <= i < 9 ==> board[i] != Blank
    ensures Clamp(bestScore, alpha, beta) == Clamp(MaxWith(-2, board, 0), alpha, beta)
    decreases BlanksFrom(board, 0), 0
  {
    var a, b := alpha, beta;
    bestScore := -2;
    for x := 0 to 9
      invariant bestScore == -2 || -1 <= bestScore <= 1
      invariant bestScore == -2 <==> forall i :: 0 <= i < x ==> board[i] != Blank
      invariant a == if bestScore == -2 then alpha else Max(alpha, bestScore)
      invariant b == beta
      invariant Clamp(MaxWith(bestScore, board, x), alpha, beta)
             == Clamp(MaxWith(-2, board, 0), alpha, beta)
    {
      if IsBlankBox(board, x) {
        var possibleBoard := GetPossibleBoard(Computer, x, board);
        MarkingRemovesOneBlank(board, x, Computer, 0);
        var possibleScore := CalcAlphaBetaPruning(possibleBoard, Human, a, b);
        MaxLoopStep(board, x, bestScore, possibleScore, alpha, beta);
        bestScore := Max(bestScore, possibleScore);
        a := Max(a, bestScore);
        if b <= a {
          break;
        }
      }
    }
  }

  /**
   * The Human branch of calcAlphaBetaPrunning: the loop over the Blank cells
   * that lowers bestScore (from +2) and beta, and stops once beta <= alpha.
   */
  method MinimizingPass(board: Board, alpha: int, beta: int) returns (bestScore: int)
    ensures bestScore == 2 || -1 <= bestScore <= 1
    ensures bestScore == 2 <==> forall i :: 0 <= i < 9 ==> board[i] != Blank
    ensures Clamp(bestScore, alpha, beta) == Clamp(MinWith(2, board, 0), alpha, beta)
    decreases BlanksFrom(board, 0), 0
  {
    var a, b := alpha, beta;
    bestScore := 2;
    for x := 0 to 9
      invariant bestScore == 2 || -1 <= bestScore <= 1
      invariant bestScore == 2 <==> forall i :: 0 <= i < x ==> board[i] != Blank
      invariant b == if bestScore == 2 then beta else Min(beta, bestScore)
      invariant a == alpha
      invariant Clamp(MinWith(bestScore, board, x), alpha, beta)
             == Clamp(MinWith(2, board, 0), alpha, beta)
    {
      if IsBlankBox(board, x) {
        var possibleBoard := GetPossibleBoard(Human, x, board);
        MarkingRemovesOneBlank(board, x, Human, 0);
        var possibleScore := CalcAlphaBetaPruning(possibleBoard, Computer, a, b);
        MinLoopStep(board, x, bestScore, possibleScore, alpha, beta);
        bestScore := Min(bestScore, possibleScore);
        b := Min(b, bestScore);
        if b <= a {
          break;
        }
      }
    }
  }

  /**
   * impossibleMode: the Blank cell whose move scores highest, the lowest index
   * among equal scores; -1 when the board has no Blank cell.
   */
  method ImpossibleMode(board: Board) returns (bestMove: int)
    ensures bestMove == -1 <==> BlanksFrom(board, 0) == 0
    ensures bestMove != -1 ==> IsBestMove(board, bestMove)
  {
    var bestScore := -2;
    bestMove := -1;
    for x := 0 to 9
      invariant bestMove == -1 <==> forall i :: 0 <= i < x ==> board[i] != Blank
      invariant bestMove == -1 ==> bestScore == -2
      invariant bestMove != -1 ==>
        0 <= bestMove < x && board[bestMove] == Blank && bestScore == MoveScore(board, bestMove)
      invariant bestMove != -1 ==>
        forall i :: 0 <= i < x && board[i] == Blank ==> MoveScore(board, i) <= bestScore
      invariant bestMove != -1 ==>
        forall i :: 0 <= i < bestMove && board[i] == Blank ==> MoveScore(board, i) < bestScore
    {
      if IsBlankBox(board, x) {
        var possibleBoard := GetPossibleBoard(Computer, x, board);
        var possibleScore := CalcAlphaBetaPruning(possibleBoard, Human, -2, 2);
        if bestScore < possibleScore {
          bestScore := possibleScore;
          bestMove := x;
        }
      }
    }
  }

  /** MaxChild is the largest move score from cell x on, and some move attains it. */
  lemma {:induction false} MaxChildIsBestScore(b: Board, x: nat)
    requires x <= 9 && BlanksFrom(b, x) > 0
    ensures forall i :: x <= i < 9 && b[i] == Blank ==> MoveScore(b, i) <= MaxChild(b, x)
    ensures exists i :: x <= i < 9 && b[i] == Blank && MoveScore(b, i) == MaxChild(b, x)
    decreases 9 - x
  {
    if b[x] != Blank {
      MaxChildIsBestScore(b, x + 1);
    } else if BlanksFrom(b, x + 1) > 0 {
      MaxChildIsBestScore(b, x + 1);
    } else {
      assert MoveScore(b, x) == MaxChild(b, x);
    }
  }

  /** The cell the root loop picks achieves the minimax value of the board. */
  lemma BestMoveAttainsMinimax(b: Board, m: int)
    requires GetWinner(b).None? && IsBestMove(b, m)
    ensures MoveScore(b, m) == Minimax(b, Computer)
  {
    MaxChildIsBestScore(b, 0);
  }

  /** At most one cell is the root loop's pick: the choice is deterministic. */
  lemma BestMoveIsUnique(b: Board, m1: int, m2: int)
    requires IsBestMove(b, m1) && IsBestMove(b, m2)
    ensures m1 == m2
  {
  }

  /** The side that moves after p. */
  function Opponent(p: Cell): (q: Cell)
    requires p != Blank
    ensures q != Blank && q != p
  {
    if p == Human then Computer else Human
  }

  /**
   * The leaf rule scores a board from the side about to move, and the winner
   * of a freshly won board is the side that just moved; so every move that
   * wins scores -1 for the opponent to move, whoever made it. In particular
   * the computer's winning moves score -1 at the root.
   */
  lemma WinningMoveScoresAsLoss(b: Board, x: Index, p: Cell)
    requires GetWinner(b).None? && b[x] == Blank && p != Blank
    requires GetWinner(GetPossibleBoard(p, x, b)).Some?
    ensures Minimax(GetPossibleBoard(p, x, b), Opponent(p)) == -1
    ensures p == Computer ==> MoveScore(b, x) == -1
  {
    NewWinnerIsMover(b, x, p);
  }

  /**
   * One instance: the leaf rule scores a board from the side about to move, so on the board
   * [C, C, _, H, H, _, _, _, _] the computer's immediately winning move scores -1.
   */
  lemma ImmediateWinScoresAsLoss()
    ensures var b: Board := [Computer, Computer, Blank, Human, Human, Blank, Blank, Blank, Blank];
      GetWinner(GetPossibleBoard(Computer, 2, b)) == Some(Computer) && MoveScore(b, 2) == -1
  {
    var b: Board := [Computer, Computer, Blank, Human, Human, Blank, Blank, Blank, Blank];
    assert Owns(GetPossibleBoard(Computer, 2, b), 0, Computer);
  }
}
