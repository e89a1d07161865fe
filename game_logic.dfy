/** Match detection, initial board generation, swap validation and
    adjacency (utils/gameLogic.ts). */
module GameLogic {
  import opened Types
  import opened Grid

  // ---------------------------------------------------------------------
  // Runs within one line (a row, or a column read top to bottom)
  // ---------------------------------------------------------------------

  /** Cells a, a+1, a+2 of `line` hold the same non-empty colour: the test
      made at every window start. */
  predicate Triple(line: seq<Color>, a: int) {
    0 <= a && a + 2 < |line| && line[a] != Empty && line[a + 1] == line[a] && line[a + 2] == line[a]
  }

  /** Cell k belongs to some window of three equal non-empty cells. */
  predicate InRun(line: seq<Color>, k: int) {
    0 <= k < |line| && (Triple(line, k) || Triple(line, k - 1) || Triple(line, k - 2))
  }

  /** `line[a..e]` (inclusive) is a run of at least three cells of one
      non-empty colour. */
  ghost predicate IsRun(line: seq<Color>, a: int, e: int) {
    0 <= a && a + 2 <= e < |line| && line[a] != Empty &&
    forall j :: a <= j <= e ==> line[j] == line[a]
  }

  /** The last index of the block of equal cells that starts at `i`: where
      the extension loop of the source stops. */
  function RunEnd(line: seq<Color>, i: nat): (e: nat)
    requires i < |line|
    ensures i <= e < |line|
    decreases |line| - i
  {
    if i + 1 < |line| && line[i + 1] == line[i] then RunEnd(line, i + 1) else i
  }

  lemma {:induction false} RunEndSame(line: seq<Color>, i: nat)
    requires i < |line|
    ensures forall j :: i <= j <= RunEnd(line, i) ==> line[j] == line[i]
    ensures RunEnd(line, i) + 1 < |line| ==> line[RunEnd(line, i) + 1] != line[i]
    decreases |line| - i
  {
    if i + 1 < |line| && line[i + 1] == line[i] {
      RunEndSame(line, i + 1);
    }
  }

  /** The block starting at a window of three reaches at least its third
      cell; the extension loop stops exactly after the block. */
  lemma TripleExtent(line: seq<Color>, c: nat)
    requires c + 2 < |line| && line[c + 1] == line[c] && line[c + 2] == line[c]
    ensures c + 2 <= RunEnd(line, c)
    ensures forall j :: c <= j <= RunEnd(line, c) ==> line[j] == line[c]
    ensures RunEnd(line, c) + 1 < |line| ==> line[RunEnd(line, c) + 1] != line[c]
  {
    RunEndSame(line, c);
    assert RunEnd(line, c) == RunEnd(line, c + 1) == RunEnd(line, c + 2);
  }

  /** A cell lies in a window of three iff it lies in a run of three or more. */
  lemma InRunIffInSomeRun(line: seq<Color>, k: int)
    ensures InRun(line, k) <==> exists a, e :: IsRun(line, a, e) && a <= k <= e
  {
    if InRun(line, k) {
      var a := if Triple(line, k) then k else if Triple(line, k - 1) then k - 1 else k - 2;
      forall j | a <= j <= a + 2
        ensures line[j] == line[a]
      {
        if j == a + 1 {} else if j == a + 2 {}
      }
      assert IsRun(line, a, a + 2);
    }
    if exists a, e :: IsRun(line, a, e) && a <= k <= e {
      var a, e :| IsRun(line, a, e) && a <= k <= e;
      if k + 2 <= e {
        assert Triple(line, k);
      } else if k + 1 <= e {
        assert Triple(line, k - 1) by { assert line[k - 1] == line[a] && line[k + 1] == line[a]; }
      } else {
        assert Triple(line, k - 2) by { assert line[k - 2] == line[a] && line[k - 1] == line[a]; }
      }
    }
  }

  /** The cells of row `r`, or taking part in the window starts before `c`
      (their windows and the extension past the third cell), that the
      horizontal sweep has recorded once it reaches start `c`. */
  predicate Covered(line: seq<Color>, c: nat, k: int) {
    0 <= k < |line| &&
    ((k < c && InRun(line, k)) ||
     (1 <= c <= k && c - 1 < |line| && InRun(line, c - 1) && k <= RunEnd(line, c - 1)))
  }

  /** Processing window start `c` records exactly the run that starts there,
      up to its end. */
  lemma CoveredStep(line: seq<Color>, c: nat, k: int)
    requires c + 2 < |line|
    ensures Covered(line, c + 1, k) <==> Covered(line, c, k) || (Triple(line, c) && c <= k <= RunEnd(line, c))
  {
    RunEndSame(line, c);
    if c >= 1 {
      RunEndSame(line, c - 1);
      if InRun(line, c) && !Triple(line, c) {
        assert line[c - 1] == line[c];
      }
      if InRun(line, c - 1) && RunEnd(line, c - 1) >= c {
        assert line[c] == line[c - 1];
        assert InRun(line, c) by {
          if Triple(line, c - 3) { assert Triple(line, c - 2); }
        }
      }
    }
  }

  /** After the last window start every cell of a run has been recorded. */
  lemma CoveredAtEnd(line: seq<Color>, k: int)
    requires |line| >= 3
    ensures Covered(line, |line| - 2, k) <==> InRun(line, k)
  {
    var l := |line|;
    RunEndSame(line, l - 3);
    if k == l - 2 && InRun(line, k) {
      assert line[l - 3] == line[l - 2];
      assert RunEnd(line, l - 3) >= l - 2;
    }
    if k == l - 1 && InRun(line, k) {
      assert Triple(line, l - 3);
      assert RunEnd(line, l - 2) >= l - 1;
    }
    if k >= l - 2 && Covered(line, l - 2, k) {
      assert line[k] == line[l - 3];
      if k == l - 1 {
        assert Triple(line, l - 3);
      } else if Triple(line, l - 5) {
        assert Triple(line, l - 4);
      }
    }
  }

  // ---------------------------------------------------------------------
  // Matches on a board
  // ---------------------------------------------------------------------

  /** Cell `p` is part of a horizontal or a vertical run of three or more
      equal non-empty colours. */
  predicate Matched(b: Board, p: Pos)
    requires IsBoard(b)
  {
    InBounds(p) && (InRun(b[p.row], p.col) || InRun(Column(b, p.col), p.row))
  }

  /** The set of matched cells. */
  function MatchSet(b: Board): (m: set<Pos>)
    requires IsBoard(b)
    ensures forall p :: p in m <==> Matched(b, p)
  {
    set r, c | 0 <= r < BOARD_SIZE && 0 <= c < BOARD_SIZE && Matched(b, Pos(r, c)) :: Pos(r, c)
  }

  /** A matched cell is never empty, and it lies inside a maximal row or
      column run of length three or more. */
  lemma MatchedIsRunCell(b: Board, p: Pos)
    requires IsBoard(b) && p in MatchSet(b)
    ensures b[p.row][p.col] != Empty
    ensures (exists a, e :: IsRun(b[p.row], a, e) && a <= p.col <= e) ||
            (exists a, e :: IsRun(Column(b, p.col), a, e) && a <= p.row <= e)
  {
    InRunIffInSomeRun(b[p.row], p.col);
    InRunIffInSomeRun(Column(b, p.col), p.row);
  }

  /** Every cell of a run of three or more in a row is matched, however long
      the run is. */
  lemma RowRunMatched(b: Board, r: int, a: int, e: int, k: int)
    requires IsBoard(b) && 0 <= r < BOARD_SIZE
    requires IsRun(b[r], a, e) && a <= k <= e
    ensures Pos(r, k) in MatchSet(b)
  {
    InRunIffInSomeRun(b[r], k);
  }

  /** Every cell of a run of three or more in a column is matched. */
  lemma ColumnRunMatched(b: Board, c: int, a: int, e: int, k: int)
    requires IsBoard(b) && 0 <= c < BOARD_SIZE
    requires IsRun(Column(b, c), a, e) && a <= k <= e
    ensures Pos(k, c) in MatchSet(b)
  {
    InRunIffInSomeRun(Column(b, c), k);
  }

  /** A board with a match has at least three matched cells, so a cascade
      round always scores at least 30 times its multiplier. */
  lemma MatchSetAtLeastThree(b: Board)
    requires IsBoard(b) && MatchSet(b) != {}
    ensures |MatchSet(b)| >= 3
  {
    var p :| p in MatchSet(b);
    var three: set<Pos>;
    if InRun(b[p.row], p.col) {
      var line := b[p.row];
      var a := if Triple(line, p.col) then p.col else if Triple(line, p.col - 1) then p.col - 1 else p.col - 2;
      three := {Pos(p.row, a), Pos(p.row, a + 1), Pos(p.row, a + 2)};
      assert InRun(line, a) && InRun(line, a + 1) && InRun(line, a + 2);
    } else {
      var col := Column(b, p.col);
      var a := if Triple(col, p.row) then p.row else if Triple(col, p.row - 1) then p.row - 1 else p.row - 2;
      three := {Pos(a, p.col), Pos(a + 1, p.col), Pos(a + 2, p.col)};
      assert InRun(col, a) && InRun(col, a + 1) && InRun(col, a + 2);
    }
    assert |three| == 3;
    assert three <= MatchSet(b);
    SubsetCard(three, MatchSet(b));
  }

  lemma SubsetCard<T>(x: set<T>, y: set<T>)
    requires x <= y
    ensures |x| <= |y|
  {
    assert y == x + (y - x);
  }

  // ---------------------------------------------------------------------
  // findMatches
  // ---------------------------------------------------------------------

  predicate Distinct(s: seq<Pos>) {
    forall i, j :: 0 <= i < j < |s| ==> s[i] != s[j]
  }

  lemma {:induction false} DistinctCard(s: seq<Pos>)
    requires Distinct(s)
    ensures |set q | q in s| == |s|
  {
    if s != [] {
      var t := s[..|s| - 1];
      assert Distinct(t);
      DistinctCard(t);
      assert (set q | q in s) == (set q | q in t) + {s[|s| - 1]};
      assert s[|s| - 1] !in t;
    }
  }

  /** `Array.from` on the result set: its members, each listed once. */
  method ListPositions(s: set<Pos>) returns (ms: seq<Pos>)
    ensures Distinct(ms)
    ensures forall p :: p in ms <==> p in s
    ensures |ms| == |s|
  {
    ms := [];
    var rest := s;
    while rest != {}
      invariant rest <= s
      invariant Distinct(ms)
      invariant forall p :: p in ms <==> p in s && p !in rest
      decreases rest
    {
      var p :| p in rest;
      ms := ms + [p];
      rest := rest - {p};
    }
    assert (set p | p in ms) == s;
    DistinctCard(ms);
  }

  /** The horizontal sweep has handled rows above `r` and, in row `r`, the
      window starts before `c`. */
  predicate HorizontalDone(b: Board, r: int, c: nat, p: Pos)
    requires IsBoard(b)
  {
    InBounds(p) && ((p.row < r && InRun(b[p.row], p.col)) || (p.row == r && Covered(b[r], c, p.col)))
  }

  /** The vertical sweep has handled columns left of `c` and, in column `c`,
      the window starts above `r`; the horizontal sweep is complete. */
  predicate VerticalDone(b: Board, c: int, r: nat, p: Pos)
    requires IsBoard(b)
  {
    InBounds(p) &&
    (InRun(b[p.row], p.col) ||
     (p.col < c && InRun(Column(b, p.col), p.row)) ||
     (p.col == c && 0 <= c < BOARD_SIZE && Covered(Column(b, c), r, p.row)))
  }

  /** One window start of the horizontal sweep: what it adds (the run that
      starts at `c`, if any) takes the sweep from start `c` to `c + 1`. */
  lemma HorizontalAdvance(b: Board, r: int, c: nat, before: set<Pos>, after: set<Pos>)
    requires IsBoard(b) && 0 <= r < BOARD_SIZE && c + 2 < BOARD_SIZE
    requires forall p :: p in before <==> HorizontalDone(b, r, c, p)
    requires Triple(b[r], c) ==>
      forall p :: p in after <==> p in before || (p.row == r && c <= p.col <= RunEnd(b[r], c))
    requires !Triple(b[r], c) ==> after == before
    ensures forall p :: p in after <==> HorizontalDone(b, r, c + 1, p)
  {
    forall p
      ensures p in after <==> HorizontalDone(b, r, c + 1, p)
    {
      CoveredStep(b[r], c, p.col);
    }
  }

  /** At the end of row `r` the sweep has recorded every row-run cell of it. */
  lemma HorizontalRowDone(b: Board, r: int, s: set<Pos>)
    requires IsBoard(b) && 0 <= r < BOARD_SIZE
    requires forall p :: p in s <==> HorizontalDone(b, r, BOARD_SIZE - 2, p)
    ensures forall p :: p in s <==> InBounds(p) && p.row < r + 1 && InRun(b[p.row], p.col)
  {
    forall p
      ensures p in s <==> InBounds(p) && p.row < r + 1 && InRun(b[p.row], p.col)
    {
      CoveredAtEnd(b[r], p.col);
    }
  }

  /** One window start of the vertical sweep, from `r` to `r + 1`. */
  lemma VerticalAdvance(b: Board, c: int, r: nat, before: set<Pos>, after: set<Pos>)
    requires IsBoard(b) && 0 <= c < BOARD_SIZE && r + 2 < BOARD_SIZE
    requires forall p :: p in before <==> VerticalDone(b, c, r, p)
    requires Triple(Column(b, c), r) ==>
      forall p :: p in after <==> p in before || (p.col == c && r <= p.row <= RunEnd(Column(b, c), r))
    requires !Triple(Column(b, c), r) ==> after == before
    ensures forall p :: p in after <==> VerticalDone(b, c, r + 1, p)
  {
    forall p
      ensures p in after <==> VerticalDone(b, c, r + 1, p)
    {
      CoveredStep(Column(b, c), r, p.row);
    }
  }

  /** At the end of column `c` the sweep has recorded every column-run cell of it. */
  lemma VerticalColumnDone(b: Board, c: int, s: set<Pos>)
    requires IsBoard(b) && 0 <= c < BOARD_SIZE
    requires forall p :: p in s <==> VerticalDone(b, c, BOARD_SIZE - 2, p)
    ensures forall p :: p in s <==>
      InBounds(p) && (InRun(b[p.row], p.col) || (p.col < c + 1 && InRun(Column(b, p.col), p.row)))
  {
    forall p
      ensures p in s <==>
        InBounds(p) && (InRun(b[p.row], p.col) || (p.col < c + 1 && InRun(Column(b, p.col), p.row)))
    {
      CoveredAtEnd(Column(b, c), p.row);
    }
  }

  /** The horizontal pass of findMatches: every cell in a run of three or
      more equal candies within its row. */
  method SweepRows(b: Board) returns (matched: set<Pos>)
    requires IsBoard(b)
    ensures forall p :: p in matched <==> InBounds(p) && InRun(b[p.row], p.col)
  {
    matched := {};
    for r := 0 to BOARD_SIZE
      invariant forall p :: p in matched <==> InBounds(p) && p.row < r && InRun(b[p.row], p.col)
    {
      for c := 0 to BOARD_SIZE - 2
        invariant forall p :: p in matched <==> HorizontalDone(b, r, c, p)
      {
        ghost var before := matched;
        var color := b[r][c];
        if color == Empty {
          HorizontalAdvance(b, r, c, before, matched);
          continue;
        }
        if b[r][c + 1] == color && b[r][c + 2] == color {
          matched := matched + {Pos(r, c)};
          matched := matched + {Pos(r, c + 1)};
          matched := matched + {Pos(r, c + 2)};
          TripleExtent(b[r], c);
          var k := c + 3;
          while k < BOARD_SIZE && b[r][k] == color
            invariant c + 3 <= k <= RunEnd(b[r], c) + 1
            invariant forall p :: p in matched <==> p in before || (p.row == r && c <= p.col < k)
          {
            matched := matched + {Pos(r, k)};
            k := k + 1;
          }
        }
        HorizontalAdvance(b, r, c, before, matched);
      }
      HorizontalRowDone(b, r, matched);
    }
  }

  /** The vertical pass of findMatches, adding to the cells `start` found by
      the horizontal pass every cell in a run within its column. */
  method SweepColumns(b: Board, start: set<Pos>) returns (matched: set<Pos>)
    requires IsBoard(b)
    requires forall p :: p in start <==> InBounds(p) && InRun(b[p.row], p.col)
    ensures forall p :: p in matched <==> Matched(b, p)
  {
    matched := start;
    for c := 0 to BOARD_SIZE
      invariant forall p :: p in matched <==>
        InBounds(p) && (InRun(b[p.row], p.col) || (p.col < c && InRun(Column(b, p.col), p.row)))
    {
      ghost var line := Column(b, c);
      for r := 0 to BOARD_SIZE - 2
        invariant forall p :: p in matched <==> VerticalDone(b, c, r, p)
      {
        ghost var before := matched;
        var color := b[r][c];
        if color == Empty {
          VerticalAdvance(b, c, r, before, matched);
          continue;
        }
        if b[r + 1][c] == color && b[r + 2][c] == color {
          matched := matched + {Pos(r, c)};
          matched := matched + {Pos(r + 1, c)};
          matched := matched + {Pos(r + 2, c)};
          TripleExtent(line, r);
          var k := r + 3;
          while k < BOARD_SIZE && b[k][c] == color
            invariant r + 3 <= k <= RunEnd(line, r) + 1
            invariant forall p :: p in matched <==> p in before || (p.col == c && r <= p.row < k)
          {
            matched := matched + {Pos(k, c)};
            k := k + 1;
          }
        }
        VerticalAdvance(b, c, r, before, matched);
      }
      VerticalColumnDone(b, c, matched);
    }
  }

  /** The matched positions, each once: exactly the cells in some horizontal
      or vertical run of three or more. */
  method FindMatches(b: Board) returns (ms: seq<Pos>)
    requires IsBoard(b)
    ensures Distinct(ms)
    ensures forall p :: p in ms <==> Matched(b, p)
    ensures (set p | p in ms) == MatchSet(b) && |ms| == |MatchSet(b)|
  {
    var rows := SweepRows(b);
    var matched := SweepColumns(b, rows);
    ms := ListPositions(matched);
    assert matched == MatchSet(b);
  }

  // ---------------------------------------------------------------------
  // createBoard
  // ---------------------------------------------------------------------

  /** Placing `x` at (r, c), after the cells `row[..c]` of row `r` and below
      the rows `rows[..r]`, would complete a run with the two cells to its
      left or the two cells above it. */
  predicate CreatesRun(rows: seq<seq<Color>>, row: seq<Color>, r: int, c: int, x: Color) {
    (2 <= c <= |row| && row[c - 1] == x && row[c - 2] == x) ||
    (2 <= r <= |rows| && 0 <= c < |rows[r - 1]| && c < |rows[r - 2]| && rows[r - 1][c] == x && rows[r - 2][c] == x)
  }

  /** No cell equals both of its left neighbours, nor both cells above it. */
  predicate NoPlacedRun(b: Board)
    requires IsBoard(b)
  {
    forall r, c :: 0 <= r < BOARD_SIZE && 0 <= c < BOARD_SIZE ==> !CreatesRun(b, b[r], r, c, b[r][c])
  }

  /** The guard of the resample loop never holds for every palette colour:
      at most two colours (the left pair's and the upper pair's) complete a
      run, and the palette has three. */
  lemma SomeColorFits(palette: seq<Color>, rows: seq<seq<Color>>, row: seq<Color>, r: int, c: int)
    requires ValidPalette(palette)
    ensures exists x :: x in palette && !CreatesRun(rows, row, r, c, x)
  {
    var i, j, k :| 0 <= i < j < k < |palette| &&
      palette[i] != palette[j] && palette[i] != palette[k] && palette[j] != palette[k];
    var left := if 1 <= c <= |row| then row[c - 1] else Empty;
    var above := if 1 <= r <= |rows| && 0 <= c < |rows[r - 1]| then rows[r - 1][c] else Empty;
    var x := if palette[i] != left && palette[i] != above then palette[i]
             else if palette[j] != left && palette[j] != above then palette[j]
             else palette[k];
    assert x in palette && x != left && x != above;
    assert !CreatesRun(rows, row, r, c, x);
  }

  /** Without placed runs, no window of three exists, so nothing matches. */
  lemma NoPlacedRunNoMatch(b: Board)
    requires IsBoard(b) && NoPlacedRun(b)
    ensures MatchSet(b) == {}
  {
    forall p | InBounds(p)
      ensures !Matched(b, p)
    {
      forall a | 0 <= a && a + 2 < BOARD_SIZE
        ensures !Triple(b[p.row], a)
      {
        assert !CreatesRun(b, b[p.row], p.row, a + 2, b[p.row][a + 2]);
      }
      var col := Column(b, p.col);
      forall a | 0 <= a && a + 2 < BOARD_SIZE
        ensures !Triple(col, a)
      {
        assert !CreatesRun(b, b[a + 2], a + 2, p.col, b[a + 2][p.col]);
      }
    }
  }

  /** A fresh board: every cell drawn from `palette`, resampled while it
      would complete a run to its left or above. The result has no match. */
  method CreateBoard(palette: seq<Color>) returns (board: Board)
    requires ValidPalette(palette)
    ensures IsBoard(board)
    ensures forall r, c :: 0 <= r < BOARD_SIZE && 0 <= c < BOARD_SIZE ==> board[r][c] in palette
    ensures NoPlacedRun(board)
    ensures NoEmpty(board)
    ensures MatchSet(board) == {}
  {
    board := [];
    for r := 0 to BOARD_SIZE
      invariant |board| == r && GoodRows(board, palette)
    {
      var row := CreateRow(palette, board, r);
      BoardGrows(board, row, palette);
      board := board + [row];
    }
    GoodBoard(board, palette);
    NoPlacedRunNoMatch(board);
  }

  /** The rows built so far: full width, drawn from `palette`, and no cell
      completing a run to its left or above. */
  predicate GoodRows(rows: seq<seq<Color>>, palette: seq<Color>) {
    forall i :: 0 <= i < |rows| ==>
      |rows[i]| == BOARD_SIZE &&
      (forall j :: 0 <= j < BOARD_SIZE ==> rows[i][j] in palette && !CreatesRun(rows, rows[i], i, j, rows[i][j]))
  }

  lemma GoodBoard(b: seq<seq<Color>>, palette: seq<Color>)
    requires |b| == BOARD_SIZE && GoodRows(b, palette)
    ensures IsBoard(b) && NoPlacedRun(b)
    ensures forall r, c :: 0 <= r < BOARD_SIZE && 0 <= c < BOARD_SIZE ==> b[r][c] in palette
  {
  }

  /** Row `r` of createBoard, built cell by cell below the rows `rows`. */
  method CreateRow(palette: seq<Color>, rows: seq<seq<Color>>, r: int) returns (row: seq<Color>)
    requires ValidPalette(palette)
    ensures |row| == BOARD_SIZE
    ensures forall j :: 0 <= j < BOARD_SIZE ==> row[j] in palette
    ensures forall j :: 0 <= j < BOARD_SIZE ==> !CreatesRun(rows, row, r, j, row[j])
  {
    row := [];
    for c := 0 to BOARD_SIZE
      invariant |row| == c
      invariant forall j :: 0 <= j < c ==> row[j] in palette
      invariant forall j :: 0 <= j < c ==> !CreatesRun(rows, row, r, j, row[j])
    {
      var candy := DrawFitting(palette, rows, row, r, c);
      RowGrows(rows, row, r, c, candy);
      row := row + [candy];
    }
  }

  /** The draw for cell (r, c) of createBoard: a palette colour, redrawn
      while it would complete a run with the two cells to its left or the
      two cells above. */
  method DrawFitting(palette: seq<Color>, rows: seq<seq<Color>>, row: seq<Color>, r: int, c: int) returns (candy: Color)
    requires ValidPalette(palette)
    ensures candy in palette && !CreatesRun(rows, row, r, c, candy)
  {
    candy :| candy in palette;
    // Colours already drawn and rejected here: a redraw of one of them
    // would be rejected again, so the draws skip them.
    var rejected: set<Color> := {};
    while CreatesRun(rows, row, r, c, candy)
      invariant candy in palette && candy !in rejected
      invariant forall x :: x in rejected ==> CreatesRun(rows, row, r, c, x)
      decreases (set x | x in palette) - rejected
    {
      rejected := rejected + {candy};
      SomeColorFits(palette, rows, row, r, c);
      candy :| candy in palette && candy !in rejected;
    }
  }

  /** Appending a cell to the row being built leaves the earlier cells' checks as they were. */
  lemma RowGrows(rows: seq<seq<Color>>, row: seq<Color>, r: int, c: int, x: Color)
    requires |row| == c
    ensures forall j :: 0 <= j < c ==>
      (CreatesRun(rows, row, r, j, row[j]) <==> CreatesRun(rows, row + [x], r, j, (row + [x])[j]))
    ensures CreatesRun(rows, row, r, c, x) <==> CreatesRun(rows, row + [x], r, c, (row + [x])[c])
  {
  }

  /** Appending a finished row keeps the earlier rows' checks as they were,
      and the row's own checks read the same against the grown board. */
  lemma BoardGrows(rows: seq<seq<Color>>, row: seq<Color>, palette: seq<Color>)
    requires GoodRows(rows, palette) && |row| == BOARD_SIZE
    requires forall j :: 0 <= j < BOARD_SIZE ==> row[j] in palette
    requires forall j :: 0 <= j < BOARD_SIZE ==> !CreatesRun(rows, row, |rows|, j, row[j])
    ensures GoodRows(rows + [row], palette)
  {
    var grown := rows + [row];
    forall i, j | 0 <= i < |grown| && 0 <= j < BOARD_SIZE
      ensures !CreatesRun(grown, grown[i], i, j, grown[i][j])
    {
      if i < |rows| {
        assert !CreatesRun(rows, rows[i], i, j, rows[i][j]);
      } else {
        assert !CreatesRun(rows, row, |rows|, j, row[j]);
      }
    }
  }

  // ---------------------------------------------------------------------
  // isValidSwap and areAdjacent
  // ---------------------------------------------------------------------

  /** Whether exchanging the two cells on a copy of the board creates a match.
      The board is a value, so the caller's board is untouched. */
  method IsValidSwap(board: Board, p1: Pos, p2: Pos) returns (valid: bool)
    requires IsBoard(board) && InBounds(p1) && InBounds(p2)
    ensures valid <==> MatchSet(Swap(board, p1, p2)) != {}
    ensures valid <==> exists p :: Matched(Swap(board, p1, p2), p)
  {
    var tempBoard := board;
    var temp := tempBoard[p1.row][p1.col];
    tempBoard := SetCell(tempBoard, p1.row, p1.col, tempBoard[p2.row][p2.col]);
    tempBoard := SetCell(tempBoard, p2.row, p2.col, temp);
    var matches := FindMatches(tempBoard);
    valid := |matches| > 0;
    if valid {
      assert matches[0] in MatchSet(tempBoard);
    }
  }

  /** Validity does not depend on the order of the two positions. */
  lemma ValidSwapSymmetric(board: Board, p1: Pos, p2: Pos)
    requires IsBoard(board) && InBounds(p1) && InBounds(p2)
    ensures (MatchSet(Swap(board, p1, p2)) != {}) == (MatchSet(Swap(board, p2, p1)) != {})
  {
    SwapSymmetric(board, p1, p2);
  }

  function Abs(x: int): nat {
    if x < 0 then -x else x
  }

  /** Orthogonal neighbours: the positions are at Manhattan distance 1. */
  function AreAdjacent(p1: Pos, p2: Pos): (adjacent: bool)
    ensures adjacent <==> Abs(p1.row - p2.row) + Abs(p1.col - p2.col) == 1
    ensures adjacent ==> p1 != p2
  {
    var rDiff := Abs(p1.row - p2.row);
    var cDiff := Abs(p1.col - p2.col);
    (rDiff == 1 && cDiff == 0) || (rDiff == 0 && cDiff == 1)
  }

  lemma AdjacentSymmetric(p1: Pos, p2: Pos)
    ensures AreAdjacent(p1, p2) == AreAdjacent(p2, p1)
  {
  }

  /** Adjacent positions differ by one step in exactly one coordinate. */
  lemma AdjacentIsOneStep(p1: Pos, p2: Pos)
    ensures AreAdjacent(p1, p2) <==>
      p2 in {Pos(p1.row - 1, p1.col), Pos(p1.row + 1, p1.col), Pos(p1.row, p1.col - 1), Pos(p1.row, p1.col + 1)}
  {
  }
}
