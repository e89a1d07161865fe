/** Cell-level access to a board value: columns, single-cell updates and the
    exchange of two cells. */
module Grid {
  import opened Types

  /** Column `c` of `b`, read top to bottom. */
  function Column(b: Board, c: int): (col: seq<Color>)
    requires IsBoard(b) && 0 <= c < BOARD_SIZE
    ensures |col| == BOARD_SIZE
    ensures forall i :: 0 <= i < BOARD_SIZE ==> col[i] == b[i][c]
  {
    seq(BOARD_SIZE, i requires 0 <= i < BOARD_SIZE => b[i][c])
  }

  /** `b` with cell (r, c) set to `x`: the model of `board[r][c] = x`. */
  function SetCell(b: Board, r: int, c: int, x: Color): (nb: Board)
    requires IsBoard(b) && InBounds(Pos(r, c))
    ensures IsBoard(nb)
    ensures nb[r][c] == x
    ensures forall i, j :: 0 <= i < BOARD_SIZE && 0 <= j < BOARD_SIZE && (i != r || j != c) ==> nb[i][j] == b[i][j]
  {
    b[r := b[r][c := x]]
  }

  /** Two boards of the fixed shape are equal when they agree cell by cell. */
  lemma BoardExt(a: Board, b: Board)
    requires IsBoard(a) && IsBoard(b)
    requires forall i, j :: 0 <= i < BOARD_SIZE && 0 <= j < BOARD_SIZE ==> a[i][j] == b[i][j]
    ensures a == b
  {
    forall i | 0 <= i < BOARD_SIZE
      ensures a[i] == b[i]
    {
      assert forall j :: 0 <= j < BOARD_SIZE ==> a[i][j] == b[i][j];
    }
  }

  /** Two boards of the fixed shape are equal when they agree column by column. */
  lemma BoardExtByColumns(a: Board, b: Board)
    requires IsBoard(a) && IsBoard(b)
    requires forall j :: 0 <= j < BOARD_SIZE ==> Column(a, j) == Column(b, j)
    ensures a == b
  {
    forall i, j | 0 <= i < BOARD_SIZE && 0 <= j < BOARD_SIZE
      ensures a[i][j] == b[i][j]
    {
      assert Column(a, j)[i] == Column(b, j)[i];
    }
    BoardExt(a, b);
  }

  /** Writing one cell changes only that cell of its column and no other column. */
  lemma ColumnsAfterSetCell(b: Board, r: int, c: int, x: Color)
    requires IsBoard(b) && InBounds(Pos(r, c))
    ensures Column(SetCell(b, r, c, x), c) == Column(b, c)[r := x]
    ensures forall j :: 0 <= j < BOARD_SIZE && j != c ==> Column(SetCell(b, r, c, x), j) == Column(b, j)
  {
  }

  /** The board with the contents of `p1` and `p2` exchanged, written as the
      two assignments the source performs. */
  function Swap(b: Board, p1: Pos, p2: Pos): (sw: Board)
    requires IsBoard(b) && InBounds(p1) && InBounds(p2)
    ensures IsBoard(sw)
    ensures sw[p1.row][p1.col] == b[p2.row][p2.col] && sw[p2.row][p2.col] == b[p1.row][p1.col]
    ensures forall i, j :: 0 <= i < BOARD_SIZE && 0 <= j < BOARD_SIZE && Pos(i, j) != p1 && Pos(i, j) != p2 ==>
              sw[i][j] == b[i][j]
  {
    var temp := b[p1.row][p1.col];
    var b1 := SetCell(b, p1.row, p1.col, b[p2.row][p2.col]);
    SetCell(b1, p2.row, p2.col, temp)
  }

  /** Swapping the same two cells again restores the board: this is why the
      swap-back of a move without a match leaves the original board. */
  lemma {:induction false} SwapInvolution(b: Board, p1: Pos, p2: Pos)
    requires IsBoard(b) && InBounds(p1) && InBounds(p2)
    ensures Swap(Swap(b, p1, p2), p1, p2) == b
  {
    var s2 := Swap(Swap(b, p1, p2), p1, p2);
    forall i, j | 0 <= i < BOARD_SIZE && 0 <= j < BOARD_SIZE
      ensures s2[i][j] == b[i][j]
    {
    }
    BoardExt(s2, b);
  }

  /** The order of the two positions does not matter. */
  lemma {:induction false} SwapSymmetric(b: Board, p1: Pos, p2: Pos)
    requires IsBoard(b) && InBounds(p1) && InBounds(p2)
    ensures Swap(b, p1, p2) == Swap(b, p2, p1)
  {
    var s1, s2 := Swap(b, p1, p2), Swap(b, p2, p1);
    forall i, j | 0 <= i < BOARD_SIZE && 0 <= j < BOARD_SIZE
      ensures s1[i][j] == s2[i][j]
    {
    }
    BoardExt(s1, s2);
  }

  /** No cell of the board holds the `Empty` marker. */
  predicate NoEmpty(b: Board)
    requires IsBoard(b)
  {
    forall i, j :: 0 <= i < BOARD_SIZE && 0 <= j < BOARD_SIZE ==> b[i][j] != Empty
  }

  /** A grid of random draws from `palette`, one per cell. */
  predicate IsDraw(d: Board, palette: seq<Color>) {
    IsBoard(d) && forall i, j :: 0 <= i < BOARD_SIZE && 0 <= j < BOARD_SIZE ==> d[i][j] in palette
  }

  /** Swapping cells of a board without `Empty` cells keeps it so. */
  lemma SwapKeepsNoEmpty(b: Board, p1: Pos, p2: Pos)
    requires IsBoard(b) && InBounds(p1) && InBounds(p2) && NoEmpty(b)
    ensures NoEmpty(Swap(b, p1, p2))
  {
  }
}
