/**
 * The board of the tic-tac-toe widget: nine cells indexed 0..8, the table of
 * the eight winning lines, and the read-only queries that the game session and
 * the search ask of a board.
 */
module BoardModel {

  datatype Option<T> = None | Some(value: T)

  /** What a cell holds; the widget encodes the three values as -1, 0 and +1. */
  datatype Cell = Human | Blank | Computer

  /** The numeric encoding of a cell (the PLAYER table). */
  function Value(c: Cell): (v: int)
    ensures -1 <= v <= 1
    ensures v == 0 <==> c == Blank
  {
    match c
    case Human => -1
    case Blank => 0
    case Computer => 1
  }

  type Index = i: int | 0 <= i < 9

  type Board = b: seq<Cell> | |b| == 9
    witness [Blank, Blank, Blank, Blank, Blank, Blank, Blank, Blank, Blank]

  const EmptyBoard: Board := [Blank, Blank, Blank, Blank, Blank, Blank, Blank, Blank, Blank]

  /** The winning lines, in the order in which they are scanned. */
  const WinConditions: seq<(Index, Index, Index)> :=
    [(0, 1, 2), (0, 3, 6), (0, 4, 8), (1, 4, 7), (2, 4, 6), (2, 5, 8), (3, 4, 5), (6, 7, 8)]

  /** (i, j, l) is a row, a column or a diagonal of the 3x3 grid, in increasing order. */
  predicate IsLine(i: int, j: int, l: int)
  {
    && 0 <= i < 9
    && (|| (i % 3 == 0 && j == i + 1 && l == i + 2)
        || (i < 3 && j == i + 3 && l == i + 6)
        || (i == 0 && j == 4 && l == 8)
        || (i == 2 && j == 4 && l == 6))
  }

  /**
   * The table lists eight different lines, and every row, column and diagonal
   * of the grid is one of them.
   */
  lemma WinConditionsAreTheLines()
    ensures |WinConditions| == 8
    ensures forall k :: 0 <= k < |WinConditions| ==>
      IsLine(WinConditions[k].0, WinConditions[k].1, WinConditions[k].2)
    ensures forall k, m :: 0 <= k < m < |WinConditions| ==> WinConditions[k] != WinConditions[m]
    ensures forall i, j, l :: IsLine(i, j, l) ==> (i, j, l) in WinConditions
  {
    forall i, j, l | IsLine(i, j, l)
      ensures (i, j, l) in WinConditions
    {
      if i == 0 && j == 1 {
        assert (i, j, l) == WinConditions[0];
      } else if i == 0 && j == 3 {
        assert (i, j, l) == WinConditions[1];
      } else if i == 0 && j == 4 {
        assert (i, j, l) == WinConditions[2];
      } else if i == 1 {
        assert (i, j, l) == WinConditions[3];
      } else if i == 2 && j == 4 {
        assert (i, j, l) == WinConditions[4];
      } else if i == 2 {
        assert (i, j, l) == WinConditions[5];
      } else if i == 3 {
        assert (i, j, l) == WinConditions[6];
      } else {
        assert (i, j, l) == WinConditions[7];
      }
    }
  }

  /** Line k of the table is filled with p's marks (p a player, not Blank). */
  predicate Owns(b: Board, k: nat, p: Cell)
    requires k < |WinConditions|
  {
    var line := WinConditions[k];
    p != Blank && b[line.0] == p && b[line.1] == p && b[line.2] == p
  }

  /** Line k of the table is filled by one player. */
  predicate Owned(b: Board, k: nat)
    requires k < |WinConditions|
  {
    Owns(b, k, b[WinConditions[k].0])
  }

  /** The number of Blank cells at indices x..8. */
  function BlanksFrom(b: Board, x: nat): (n: nat)
    requires x <= 9
    ensures n <= 9 - x
    ensures n == 0 <==> forall i :: x <= i < 9 ==> b[i] != Blank
    decreases 9 - x
  {
    if x == 9 then 0 else (if b[x] == Blank then 1 else 0) + BlanksFrom(b, x + 1)
  }

  /** isBlankBox: the cell holds the Blank encoding 0. */
  predicate IsBlankBox(b: Board, index: Index)
    ensures IsBlankBox(b, index) <==> Value(b[index]) == 0
  {
    b[index] == Blank
  }

  /** The scan of getWinner from line k on: the owner of the first owned line. */
  function WinnerFrom(b: Board, k: nat): (r: Option<Cell>)
    requires k <= |WinConditions|
    ensures r.Some? ==> r.value != Blank
    decreases |WinConditions| - k
  {
    if k == |WinConditions| then None
    else
      var condition := WinConditions[k];
      var player := b[condition.0];
      if player != Blank && b[condition.1] == player && b[condition.2] == player then
        Some(player)
      else
        WinnerFrom(b, k + 1)
  }

  /** getWinner: the owner of the first owned line of the table, if any. */
  function GetWinner(b: Board): (r: Option<Cell>)
    ensures r.Some? ==> r.value != Blank
  {
    WinnerFrom(b, 0)
  }

  /** The scan from line k finds nothing exactly when no later line is owned, else the first owner. */
  lemma {:induction false} WinnerFromMeaning(b: Board, k: nat)
    requires k <= |WinConditions|
    ensures WinnerFrom(b, k).None? <==> forall j :: k <= j < |WinConditions| ==> !Owned(b, j)
    ensures WinnerFrom(b, k).Some? ==>
      exists j :: k <= j < |WinConditions| && Owns(b, j, WinnerFrom(b, k).value) &&
        forall i :: k <= i < j ==> !Owned(b, i)
    decreases |WinConditions| - k
  {
    if k < |WinConditions| {
      WinnerFromMeaning(b, k + 1);
      if WinnerFrom(b, k).Some? && Owned(b, k) {
        assert Owns(b, k, WinnerFrom(b, k).value);
      }
    }
  }

  /**
   * getWinner reports no winner exactly when no line of the table is filled by
   * one player; otherwise it reports the owner of the first such line in table
   * order.
   */
  lemma GetWinnerMeaning(b: Board)
    ensures GetWinner(b).None? <==> forall k :: 0 <= k < |WinConditions| ==> !Owned(b, k)
    ensures GetWinner(b).Some? ==>
      exists k :: 0 <= k < |WinConditions| && Owns(b, k, GetWinner(b).value) &&
        forall j :: 0 <= j < k ==> !Owned(b, j)
  {
    WinnerFromMeaning(b, 0);
  }

  /** The scan of isDrawMove from cell x on. */
  function NoBlankFrom(b: Board, x: nat): (r: bool)
    requires x <= 9
    ensures r <==> forall i :: x <= i < 9 ==> b[i] != Blank
    decreases 9 - x
  {
    if x == 9 then true
    else if IsBlankBox(b, x) then false
    else NoBlankFrom(b, x + 1)
  }

  /** isDrawMove: the board has no Blank cell. It does not look at the winner. */
  function IsDrawMove(b: Board): (r: bool)
    ensures r <==> forall i :: 0 <= i < 9 ==> b[i] != Blank
    ensures r <==> BlanksFrom(b, 0) == 0
  {
    NoBlankFrom(b, 0)
  }

  /**
   * isWinMove: the winner equals `player`. A board without a winner compares
   * equal to Blank, because the source's "no winner" value `false` is loosely
   * equal to 0.
   */
  predicate IsWinMove(player: Cell, b: Board)
  {
    match GetWinner(b)
    case Some(w) => w == player
    case None => player == Blank
  }

  /**
   * What isWinMove means in terms of the lines: a player who has won owns a
   * line; a player who owns a line that no one else owns has won; and Blank
   * "wins" exactly the boards on which no line is owned.
   */
  lemma IsWinMoveMeaning(player: Cell, b: Board)
    ensures IsWinMove(player, b) && player != Blank ==>
      exists k :: 0 <= k < |WinConditions| && Owns(b, k, player)
    ensures (player != Blank && (exists k :: 0 <= k < |WinConditions| && Owns(b, k, player)) &&
             forall k, q :: 0 <= k < |WinConditions| && Owns(b, k, q) ==> q == player) ==>
      IsWinMove(player, b)
    ensures player == Blank ==>
      (IsWinMove(player, b) <==> forall k :: 0 <= k < |WinConditions| ==> !Owned(b, k))
  {
    GetWinnerMeaning(b);
  }

  /** getPossibleBoard: a copy of the board with `player` written at `position`. */
  function GetPossibleBoard(player: Cell, position: Index, board: Board): (r: Board)
    ensures r[position] == player
    ensures forall i :: 0 <= i < 9 && i != position ==> r[i] == board[i]
  {
    board[position := player]
  }

  /** Writing a player's mark into a Blank cell removes exactly that one Blank. */
  lemma {:induction false} MarkingRemovesOneBlank(b: Board, position: Index, player: Cell, x: nat)
    requires x <= 9 && b[position] == Blank && player != Blank
    ensures BlanksFrom(GetPossibleBoard(player, position, b), x)
         == BlanksFrom(b, x) - (if x <= position then 1 else 0)
    decreases 9 - x
  {
    if x < 9 {
      MarkingRemovesOneBlank(b, position, player, x + 1);
    }
  }

  /**
   * A mark placed on a board without a winner can only make the player who
   * placed it the winner: any line the new board has filled must pass
   * through the new mark.
   */
  lemma NewWinnerIsMover(b: Board, x: Index, p: Cell)
    requires GetWinner(b).None? && b[x] == Blank && p != Blank
    ensures GetWinner(GetPossibleBoard(p, x, b)).Some? ==> GetWinner(GetPossibleBoard(p, x, b)).value == p
  {
    var c := GetPossibleBoard(p, x, b);
    GetWinnerMeaning(b);
    GetWinnerMeaning(c);
    if GetWinner(c).Some? {
      var k :| 0 <= k < |WinConditions| && Owns(c, k, GetWinner(c).value) &&
        forall j :: 0 <= j < k ==> !Owned(c, j);
      assert !Owned(b, k);
    }
  }

  /** A full board may still have a winner: isDrawMove is true on it regardless. */
  lemma FullWonBoardIsDrawMove()
    ensures var b: Board := [Computer, Computer, Computer, Human, Human, Computer, Human, Computer, Human];
      IsDrawMove(b) && GetWinner(b) == Some(Computer)
  {
    var b: Board := [Computer, Computer, Computer, Human, Human, Computer, Human, Computer, Human];
    assert Owns(b, 0, Computer);
  }
}
