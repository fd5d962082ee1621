/**
 * The tic-tac-toe board of
 * assignments/week-3-arrays-sorting/Week3ArraysSorting/BoardGame.cs: a 3x3
 * character grid and the mark of the player to move. Reset writes the
 * labels '1'..'9' row by row, a move writes the current mark into a cell
 * that is still labelled, and the win and draw checks read the grid.
 */
module TicTacToe {

  /** The label ResetBoard writes into cell (i, j): '1' for the top left, counting row by row. */
  function Label(i: int, j: int): char
    requires 0 <= i < 3 && 0 <= j < 3
  {
    ('1' as int + 3 * i + j) as char
  }

  /** A player's mark. */
  predicate IsMark(c: char) {
    c == 'X' || c == 'O'
  }

  /** SwitchPlayer on a value: 'X' becomes 'O', anything else becomes 'X'. */
  function Other(p: char): (r: char)
    ensures IsMark(r)
    ensures p == 'X' ==> r == 'O'
    ensures p != 'X' ==> r == 'X'
  {
    if p == 'X' then 'O' else 'X'
  }

  /** Switching twice gives the turn back to the same mark. */
  lemma SwitchTwice(p: char)
    requires IsMark(p)
    ensures Other(Other(p)) == p
  {
  }

  /**
   * The cell a choice in 1..9 names: row (choice-1)/3 and column
   * (choice-1)%3; both operands are non-negative, so C#'s truncating
   * operators agree with Dafny's.
   */
  function CellOf(choice: int): (r: (int, int))
    requires 1 <= choice <= 9
    ensures 0 <= r.0 < 3 && 0 <= r.1 < 3
    ensures 3 * r.0 + r.1 == choice - 1
  {
    ((choice - 1) / 3, (choice - 1) % 3)
  }

  /** Different choices name different cells, and every cell is named by some choice. */
  lemma CellOfBijective(c1: int, c2: int, i: int, j: int)
    requires 1 <= c1 <= 9 && 1 <= c2 <= 9
    requires 0 <= i < 3 && 0 <= j < 3
    ensures c1 != c2 ==> CellOf(c1) != CellOf(c2)
    ensures CellOf(3 * i + j + 1) == (i, j)
  {
  }

  /** On a freshly reset board the cell a choice names is labelled with that choice's digit. */
  lemma LabelOfChoice(choice: int)
    requires 1 <= choice <= 9
    ensures Label(CellOf(choice).0, CellOf(choice).1) == ('0' as int + choice) as char
  {
  }

  class BoardGame {
    const board: array2<char>
    var currentPlayer: char

    ghost predicate Valid()
      reads this
    {
      board.Length0 == 3 && board.Length1 == 3
    }

    constructor ()
      ensures Valid() && fresh(board)
      ensures currentPlayer == 'X'
    {
      board := new char[3, 3];
      currentPlayer := 'X';
    }

    /** Every cell shows its label: the board ResetBoard leaves. */
    predicate IsReset()
      requires Valid()
      reads this, board
    {
      forall i, j :: 0 <= i < 3 && 0 <= j < 3 ==> board[i, j] == Label(i, j)
    }

    /** Some row, column or diagonal holds `p` in all three cells. */
    predicate HasLine(p: char)
      requires Valid()
      reads this, board
    {
      (exists i :: 0 <= i < 3 && board[i, 0] == p && board[i, 1] == p && board[i, 2] == p)
      || (exists j :: 0 <= j < 3 && board[0, j] == p && board[1, j] == p && board[2, j] == p)
      || (board[0, 0] == p && board[1, 1] == p && board[2, 2] == p)
      || (board[0, 2] == p && board[1, 1] == p && board[2, 0] == p)
    }

    /** Every cell holds a mark. */
    predicate IsFull()
      requires Valid()
      reads this, board
    {
      forall i, j :: 0 <= i < 3 && 0 <= j < 3 ==> IsMark(board[i, j])
    }

    /** ResetBoard: writes '1'..'9' in row-major order. */
    method ResetBoard()
      requires Valid()
      modifies board
      ensures IsReset()
    {
      var n := '1';
      for i := 0 to 3
        invariant n as int == '1' as int + 3 * i
        invariant forall r, c :: 0 <= r < i && 0 <= c < 3 ==> board[r, c] == Label(r, c)
      {
        for j := 0 to 3
          invariant n as int == '1' as int + 3 * i + j
          invariant forall r, c :: 0 <= r < i && 0 <= c < 3 ==> board[r, c] == Label(r, c)
          invariant forall c :: 0 <= c < j ==> board[i, c] == Label(i, c)
        {
          board[i, j] := n;
          n := (n as int + 1) as char;
        }
      }
    }

    /**
     * One attempt of PlayerMove with the number the player typed: a choice
     * in 1..9 whose cell holds no mark receives the current mark; any other
     * choice is refused and the board is left as it was.
     */
    method TryMove(choice: int) returns (placed: bool)
      requires Valid()
      modifies board
      ensures placed <==> 1 <= choice <= 9 && !IsMark(old(board[CellOf(choice).0, CellOf(choice).1]))
      ensures placed ==> board[CellOf(choice).0, CellOf(choice).1] == currentPlayer
      ensures forall i, j :: 0 <= i < 3 && 0 <= j < 3 && (!placed || (i, j) != CellOf(choice)) ==>
        board[i, j] == old(board[i, j])
    {
      placed := false;
      if 1 <= choice <= 9 {
        var row := (choice - 1) / 3;
        var col := (choice - 1) % 3;
        if board[row, col] != 'X' && board[row, col] != 'O' {
          board[row, col] := currentPlayer;
          placed := true;
        }
      }
    }

    /** SwitchPlayer: alternates 'X' and 'O'. */
    method SwitchPlayer()
      modifies this
      ensures currentPlayer == Other(old(currentPlayer))
    {
      currentPlayer := if currentPlayer == 'X' then 'O' else 'X';
    }

    /** CheckWin: rows, then columns, then both diagonals, for the current mark. */
    method CheckWin() returns (r: bool)
      requires Valid()
      ensures r <==> HasLine(currentPlayer)
    {
      var p := currentPlayer;
      for i := 0 to 3
        invariant forall k :: 0 <= k < i ==> !(board[k, 0] == p && board[k, 1] == p && board[k, 2] == p)
      {
        if board[i, 0] == p && board[i, 1] == p && board[i, 2] == p {
          return true;
        }
      }
      for i := 0 to 3
        invariant forall k :: 0 <= k < i ==> !(board[0, k] == p && board[1, k] == p && board[2, k] == p)
      {
        if board[0, i] == p && board[1, i] == p && board[2, i] == p {
          return true;
        }
      }
      if (board[0, 0] == p && board[1, 1] == p && board[2, 2] == p)
        || (board[0, 2] == p && board[1, 1] == p && board[2, 0] == p)
      {
        return true;
      }
      return false;
    }

    /** CheckDraw: visits the cells row by row and fails at the first one without a mark. */
    method CheckDraw() returns (r: bool)
      requires Valid()
      ensures r <==> IsFull()
    {
      for i := 0 to 3
        invariant forall a, b :: 0 <= a < i && 0 <= b < 3 ==> IsMark(board[a, b])
      {
        for j := 0 to 3
          invariant forall a, b :: 0 <= a < i && 0 <= b < 3 ==> IsMark(board[a, b])
          invariant forall b :: 0 <= b < j ==> IsMark(board[i, b])
        {
          if board[i, j] != 'X' && board[i, j] != 'O' {
            return false;
          }
        }
      }
      return true;
    }

    /** Right after ResetBoard there is no draw and no winner. */
    lemma ResetIsOpen(p: char)
      requires Valid() && IsReset() && IsMark(p)
      ensures !IsFull() && !HasLine(p)
    {
      assert board[1, 1] == Label(1, 1);
      assert !IsMark(board[1, 1]);
    }
  }
}
