/**
 * The state of one widget: the board, whose turn it is, the two win counters
 * and the difficulty level, updated in place by marking a cell, judging the
 * match, the computer's turn, the reset of the board and the choice of level.
 *
 * Each step is specified by a function (or, where the search decides, a
 * predicate) on a Session value; the class's methods are proved to move their
 * fields exactly as those say.
 */
module GameSession {
  import opened BoardModel
  import opened SearchEngine

  /** Whether a turn ran, or stopped at a level whose move chooser is missing. */
  datatype Outcome = Ok | UnsupportedDifficulty

  /** The widget's variables as one value. */
  datatype Session = Session(board: Board, playerTurn: Cell, humanWins: nat, computerWins: nat, difficulty: int)

  /** The mark the mover writes: Human on Human's turn, Computer otherwise. */
  function Mover(playerTurn: Cell): Cell
  {
    if playerTurn == Human then Human else Computer
  }

  /**
   * markBox on a session: a Blank cell in 0..8 receives the mover's mark and
   * the step reports true; any other index leaves the session as it was.
   */
  function MarkStep(s: Session, index: int): (r: (Session, bool))
    ensures r.1 <==> 0 <= index < 9 && s.board[index] == Blank
    ensures r.1 ==> r.0.board[index] == Mover(s.playerTurn) && r.0.board[index] != Blank
    ensures forall i :: 0 <= i < 9 && i != index ==> r.0.board[i] == s.board[i]
    ensures !r.1 ==> r.0 == s
    ensures r.0.playerTurn == s.playerTurn && r.0.humanWins == s.humanWins
    ensures r.0.computerWins == s.computerWins && r.0.difficulty == s.difficulty
    ensures r.1 ==> BlanksFrom(r.0.board, 0) == BlanksFrom(s.board, 0) - 1
  {
    if 0 <= index < 9 && IsBlankBox(s.board, index) then
      MarkingRemovesOneBlank(s.board, index, Mover(s.playerTurn), 0);
      (s.(board := GetPossibleBoard(Mover(s.playerTurn), index, s.board)), true)
    else
      (s, false)
  }

  /** matchHandler on a session (its meaning is stated by MatchStepMeaning). */
  function MatchStep(s: Session): (Session, bool)
    requires s.playerTurn != Blank
  {
    var isVictory := IsWinMove(s.playerTurn, s.board);
    var isDraw := IsDrawMove(s.board);
    if isVictory then
      if s.playerTurn == Human then
        (s.(playerTurn := Human, humanWins := s.humanWins + 1), true)
      else
        (s.(playerTurn := Computer, computerWins := s.computerWins + 1), true)
    else if isDraw then
      (s, true)
    else
      (s, false)
  }

  /**
   * The match is over when the mover has won or no cell is Blank. Only a win
   * changes anything: the winner's counter goes up by one and the turn is the
   * winner's.
   */
  lemma MatchStepMeaning(s: Session)
    requires s.playerTurn != Blank
    ensures var (r, over) := MatchStep(s);
      && (over <==> GetWinner(s.board) == Some(s.playerTurn) || BlanksFrom(s.board, 0) == 0)
      && r.board == s.board && r.difficulty == s.difficulty && r.playerTurn == s.playerTurn
      && r.humanWins
         == s.humanWins + (if GetWinner(s.board) == Some(Human) && s.playerTurn == Human then 1 else 0)
      && r.computerWins
         == s.computerWins + (if GetWinner(s.board) == Some(Computer) && s.playerTurn == Computer then 1 else 0)
  {
  }

  /**
   * The shared step of the click listener and computerTurn: mark cell `index`
   * and judge the match; when the match goes on, `next` is to move. The flag
   * says whether the match goes on.
   */
  function Play(s: Session, index: int, next: Cell): (Session, bool)
    requires s.playerTurn != Blank
  {
    var (marked, ok) := MarkStep(s, index);
    if !ok then (s, false)
    else
      var (judged, over) := MatchStep(marked);
      if over then (judged, false) else (judged.(playerTurn := next), true)
  }

  /**
   * computerTurn on a session, relating the state before (s) to the state
   * after (t). Nothing happens on Human's turn. Levels 0 and 1 stop with
   * UnsupportedDifficulty. On level 2 the computer marks the root loop's best
   * cell (when there is a Blank one), the match is judged and, if it goes on,
   * Human is to move. Any other level chooses no cell, so nothing changes.
   */
  ghost predicate ComputerTurnStep(s: Session, t: Session, outcome: Outcome)
    requires s.playerTurn != Blank
  {
    if s.playerTurn == Human then
      t == s && outcome == Ok
    else if s.difficulty == 0 || s.difficulty == 1 then
      t == s && outcome == UnsupportedDifficulty
    else if s.difficulty == 2 && BlanksFrom(s.board, 0) > 0 then
      outcome == Ok &&
      exists m :: IsBestMove(s.board, m) && t == Play(s, m, Human).0
    else
      t == s && outcome == Ok
  }

  /**
   * A click on cell `index`: on Human's turn a Blank cell is marked and the
   * match judged; if it goes on, the computer takes its turn.
   */
  ghost predicate ClickStep(s: Session, index: int, t: Session, outcome: Outcome)
    requires s.playerTurn != Blank
  {
    if s.playerTurn != Human then
      t == s && outcome == Ok
    else
      var (played, goesOn) := Play(s, index, Computer);
      if goesOn then ComputerTurnStep(played, t, outcome)
      else t == played && outcome == Ok
  }

  class TicTacToe {
    var boardState: array<Cell>
    var humanWins: nat
    var computerWins: nat
    var difficulty: int
    var playerTurn: Cell

    ghost predicate Valid()
      reads this
    {
      boardState.Length == 9 && playerTurn != Blank
    }

    /** The fields as a Session value. */
    ghost function View(): Session
      reads this, boardState
      requires Valid()
    {
      Session(boardState[..], playerTurn, humanWins, computerWins, difficulty)
    }

    /** isHumanTurn: the turn holds Human's encoding -1, so the mover marks Human. */
    predicate IsHumanTurn()
      reads this
      ensures IsHumanTurn() <==> Value(playerTurn) == -1
      ensures IsHumanTurn() <==> Mover(playerTurn) == Human
    {
      playerTurn == Human
    }

    /** A new widget: empty board, Human to move, no wins, level 2. */
    constructor ()
      ensures Valid() && fresh(boardState)
      ensures View() == Session(EmptyBoard, Human, 0, 0, 2)
    {
      boardState := new Cell[9](_ => Blank);
      humanWins, computerWins := 0, 0;
      difficulty := 2;
      playerTurn := Human;
      new;
      assert boardState[..] == EmptyBoard;
    }

    method MarkBox(index: int) returns (marked: bool)
      requires Valid()
      modifies boardState
      ensures Valid()
      ensures (View(), marked) == MarkStep(old(View()), index)
    {
      if 0 <= index < 9 && IsBlankBox(boardState[..], index) {
        if IsHumanTurn() {
          boardState[index] := Human;
        } else {
          boardState[index] := Computer;
        }
        return true;
      }
      return false;
    }

    method MatchHandler() returns (over: bool)
      requires Valid()
      modifies this
      ensures Valid() && boardState == old(boardState)
      ensures (View(), over) == MatchStep(old(View()))
    {
      ghost var s := View();
      var isVictory := IsWinMove(playerTurn, boardState[..]);
      var isDraw := IsDrawMove(boardState[..]);
      assert isVictory == IsWinMove(s.playerTurn, s.board) && isDraw == IsDrawMove(s.board);
      if isVictory || isDraw {
        if isVictory {
          if IsHumanTurn() {
            playerTurn := Human;
            humanWins := humanWins + 1;
          } else {
            playerTurn := Computer;
            computerWins := computerWins + 1;
          }
        }
        over := true;
      } else {
        over := false;
      }
      assert View().board == s.board;
    }

    method ComputerTurn() returns (outcome: Outcome)
      requires Valid()
      modifies this, boardState
      ensures Valid() && boardState == old(boardState)
      ensures ComputerTurnStep(old(View()), View(), outcome)
    {
      outcome := Ok;
      if !IsHumanTurn() {
        var move := -1;
        if difficulty == 0 || difficulty == 1 {
          return UnsupportedDifficulty;
        } else if difficulty == 2 {
          move := ImpossibleMode(boardState[..]);
        }
        ghost var s := View();
        var _ := PlayTurn(move, Human);
        if move != -1 {
          BestMoveIsComputerTurn(s, move);
        }
      }
    }

    /**
     * `markBox(index) && !matchHandler()`, after which `next` is to move: the
     * step that the click listener and computerTurn share.
     */
    method PlayTurn(index: int, next: Cell) returns (goesOn: bool)
      requires Valid() && next != Blank
      modifies this, boardState
      ensures Valid() && boardState == old(boardState)
      ensures (View(), goesOn) == Play(old(View()), index, next)
    {
      var marked := MarkBox(index);
      goesOn := false;
      if marked {
        var over := MatchHandler();
        if !over {
          playerTurn := next;
          goesOn := true;
        }
      }
    }

    /** init: a fresh empty board; if the computer is to move, it moves first. */
    method Init() returns (outcome: Outcome)
      requires Valid()
      modifies this
      ensures Valid() && fresh(boardState)
      ensures ComputerTurnStep(old(View()).(board := EmptyBoard), View(), outcome)
    {
      boardState := new Cell[9](_ => Blank);
      assert boardState[..] == EmptyBoard;
      outcome := Ok;
      if !IsHumanTurn() {
        outcome := ComputerTurn();
      }
    }

    /** setDifficulty: any level is stored; the counters restart and Human opens a new board. */
    method SetDifficulty(d: int)
      requires Valid()
      modifies this
      ensures Valid() && fresh(boardState)
      ensures View() == Session(EmptyBoard, Human, 0, 0, d)
    {
      difficulty := d;
      humanWins := 0;
      computerWins := 0;
      playerTurn := Human;
      var _ := Init();
    }

    /** The click listener on cell `index`. */
    method Click(index: int) returns (outcome: Outcome)
      requires Valid()
      modifies this, boardState
      ensures Valid() && boardState == old(boardState)
      ensures ClickStep(old(View()), index, View(), outcome)
    {
      outcome := Ok;
      if IsHumanTurn() {
        var goesOn := PlayTurn(index, Computer);
        if goesOn {
          outcome := ComputerTurn();
        }
      }
    }
  }

  // The root loop's cell, marked and judged, is a computer turn of level 2.
  lemma BestMoveIsComputerTurn(s: Session, m: int)
    requires s.playerTurn == Computer && s.difficulty == 2 && IsBestMove(s.board, m)
    ensures ComputerTurnStep(s, Play(s, m, Human).0, Ok)
  {
    assert BlanksFrom(s.board, 0) > 0;
  }

  /** The computer's turn is a function of the session: the root loop's choice is unique. */
  lemma ComputerTurnIsDeterministic(s: Session, t1: Session, o1: Outcome, t2: Session, o2: Outcome)
    requires s.playerTurn != Blank
    requires ComputerTurnStep(s, t1, o1) && ComputerTurnStep(s, t2, o2)
    ensures t1 == t2 && o1 == o2
  {
    if s.playerTurn == Computer && s.difficulty == 2 && BlanksFrom(s.board, 0) > 0 {
      var m1 :| IsBestMove(s.board, m1) && t1 == Play(s, m1, Human).0;
      var m2 :| IsBestMove(s.board, m2) && t2 == Play(s, m2, Human).0;
      BestMoveIsUnique(s.board, m1, m2);
    }
  }

  // The computer's mark, judged, changes no human point and adds at most one computer point.
  lemma PlayByComputer(s: Session, index: int, next: Cell)
    requires s.playerTurn == Computer && next != Blank
    ensures var t := Play(s, index, next).0;
      && t.playerTurn != Blank && t.difficulty == s.difficulty && t.humanWins == s.humanWins
      && s.computerWins <= t.computerWins <= s.computerWins + 1
  {
  }

  // The human's mark, judged, changes no computer point and adds at most one human
  // point; when the match goes on, no point changes at all.
  lemma PlayByHuman(s: Session, index: int, next: Cell)
    requires s.playerTurn == Human && next != Blank
    ensures var (t, goesOn) := Play(s, index, next);
      && t.playerTurn != Blank && t.difficulty == s.difficulty && t.computerWins == s.computerWins
      && s.humanWins <= t.humanWins <= s.humanWins + 1
      && (goesOn ==> t.humanWins == s.humanWins && t.playerTurn == next)
  {
  }

  /**
   * A turn of the computer never takes a point from anyone, gives at most one
   * point, and gives it only to the computer; the turn stays with a player.
   */
  lemma ComputerTurnScores(s: Session, t: Session, outcome: Outcome)
    requires s.playerTurn != Blank
    requires ComputerTurnStep(s, t, outcome)
    ensures t.playerTurn != Blank && t.difficulty == s.difficulty
    ensures t.humanWins == s.humanWins
    ensures s.computerWins <= t.computerWins <= s.computerWins + 1
  {
    if s.playerTurn == Computer && s.difficulty == 2 && BlanksFrom(s.board, 0) > 0 {
      var m :| IsBestMove(s.board, m) && t == Play(s, m, Human).0;
      PlayByComputer(s, m, Human);
    }
  }

  /**
   * A click never takes a point from anyone and gives at most one point in
   * all: either the human's mark wins, and the computer does not reply, or
   * the computer's reply may win. The turn stays with a player.
   */
  lemma {:induction false} ClickScores(s: Session, index: int, t: Session, outcome: Outcome)
    requires s.playerTurn != Blank
    requires ClickStep(s, index, t, outcome)
    ensures t.playerTurn != Blank && t.difficulty == s.difficulty
    ensures s.humanWins <= t.humanWins && s.computerWins <= t.computerWins
    ensures t.humanWins + t.computerWins <= s.humanWins + s.computerWins + 1
  {
    if s.playerTurn == Human {
      var (played, goesOn) := Play(s, index, Computer);
      PlayByHuman(s, index, Computer);
      if goesOn {
        ComputerTurnScores(played, t, outcome);
      }
    }
  }
}
