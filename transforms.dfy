/** The board transforms of one cascade round (App.tsx): clearing the
    matched cells, gravity and refill, and the cascade they make up. */
module Transforms {
  import opened Types
  import opened Grid
  import opened GameLogic

  // ---------------------------------------------------------------------
  // Gravity on one column
  // ---------------------------------------------------------------------

  /** The non-empty cells of `s`, in order. */
  function NonEmpty(s: seq<Color>): (t: seq<Color>)
    ensures |t| <= |s| && Empty !in t
  {
    if s == [] then []
    else if s[0] == Empty then NonEmpty(s[1..])
    else [s[0]] + NonEmpty(s[1..])
  }

  function Empties(n: nat): (e: seq<Color>)
    ensures |e| == n && forall i :: 0 <= i < n ==> e[i] == Empty
  {
    seq(n, i => Empty)
  }

  /** A column after gravity: its candies, in their order, at the bottom and
      `Empty` above them. */
  function Compact(s: seq<Color>): (t: seq<Color>)
    ensures |t| == |s|
  {
    Empties(|s| - |NonEmpty(s)|) + NonEmpty(s)
  }

  /** No `Empty` cell lies below a candy. */
  predicate IsSettledLine(s: seq<Color>) {
    forall i, j :: 0 <= i < j < |s| && s[i] != Empty ==> s[j] != Empty
  }

  /** Peeling one cell off the front of a suffix: the step of the bottom-up
      scan. */
  lemma NonEmptyStep(s: seq<Color>, r: nat)
    requires r < |s|
    ensures NonEmpty(s[r..]) == (if s[r] == Empty then [] else [s[r]]) + NonEmpty(s[r + 1..])
  {
    assert s[r..][1..] == s[r + 1..];
  }

  lemma {:induction false} NonEmptyAppend(a: seq<Color>, b: seq<Color>)
    ensures NonEmpty(a + b) == NonEmpty(a) + NonEmpty(b)
  {
    if a == [] {
      assert a + b == b;
    } else {
      assert (a + b)[0] == a[0] && (a + b)[1..] == a[1..] + b;
      NonEmptyAppend(a[1..], b);
    }
  }

  lemma {:induction false} NonEmptyOfEmpties(n: nat)
    ensures NonEmpty(Empties(n)) == []
  {
    if n > 0 {
      assert Empties(n)[1..] == Empties(n - 1);
      NonEmptyOfEmpties(n - 1);
    }
  }

  lemma {:induction false} NonEmptyOfFull(s: seq<Color>)
    requires Empty !in s
    ensures NonEmpty(s) == s
  {
    if s != [] {
      NonEmptyOfFull(s[1..]);
    }
  }

  /** Gravity keeps the column's candies and their order. */
  lemma CompactKeepsCandies(s: seq<Color>)
    ensures NonEmpty(Compact(s)) == NonEmpty(s)
  {
    NonEmptyAppend(Empties(|s| - |NonEmpty(s)|), NonEmpty(s));
    NonEmptyOfEmpties(|s| - |NonEmpty(s)|);
    NonEmptyOfFull(NonEmpty(s));
  }

  /** After gravity no hole is left under a candy. */
  lemma CompactSettles(s: seq<Color>)
    ensures IsSettledLine(Compact(s))
  {
    var k := |s| - |NonEmpty(s)|;
    var t := Compact(s);
    forall i, j | 0 <= i < j < |t| && t[i] != Empty
      ensures t[j] != Empty
    {
      assert k <= i;
      assert t[j] == NonEmpty(s)[j - k];
    }
  }

  /** A settled column is left as it is. */
  lemma {:induction false} SettledIsCompact(s: seq<Color>)
    requires IsSettledLine(s)
    ensures Compact(s) == s
  {
    if s == [] {
    } else if s[0] == Empty {
      var tail := s[1..];
      assert IsSettledLine(tail) by {
        forall i, j | 0 <= i < j < |tail| && tail[i] != Empty
          ensures tail[j] != Empty
        {
          assert s[i + 1] != Empty;
        }
      }
      SettledIsCompact(tail);
      assert NonEmpty(s) == NonEmpty(tail);
      assert Empties(|s| - |NonEmpty(s)|) == [Empty] + Empties(|tail| - |NonEmpty(tail)|);
      assert s == [Empty] + tail;
    } else {
      assert Empty !in s by {
        forall j | 0 <= j < |s|
          ensures s[j] != Empty
        {
          if j > 0 {
            assert s[0] != Empty;
          }
        }
      }
      NonEmptyOfFull(s);
      assert Empties(0) == [];
    }
  }

  /** Compacting twice is compacting once. */
  lemma CompactIdempotent(s: seq<Color>)
    ensures Compact(Compact(s)) == Compact(s)
  {
    CompactSettles(s);
    SettledIsCompact(Compact(s));
  }

  // ---------------------------------------------------------------------
  // applyGravity
  // ---------------------------------------------------------------------

  /** The board after gravity: every column compacted. */
  function Settle(b: Board): (sb: Board)
    requires IsBoard(b)
    ensures IsBoard(sb)
    ensures forall r, c :: 0 <= r < BOARD_SIZE && 0 <= c < BOARD_SIZE ==> sb[r][c] == Compact(Column(b, c))[r]
  {
    seq(BOARD_SIZE, r requires 0 <= r < BOARD_SIZE =>
      seq(BOARD_SIZE, c requires 0 <= c < BOARD_SIZE => Compact(Column(b, c))[r]))
  }

  lemma SettleColumn(b: Board, c: int)
    requires IsBoard(b) && 0 <= c < BOARD_SIZE
    ensures Column(Settle(b), c) == Compact(Column(b, c))
  {
  }

  /** Gravity keeps every column's candies in their relative order. */
  lemma GravityKeepsCandies(b: Board, c: int)
    requires IsBoard(b) && 0 <= c < BOARD_SIZE
    ensures NonEmpty(Column(Settle(b), c)) == NonEmpty(Column(b, c))
  {
    SettleColumn(b, c);
    CompactKeepsCandies(Column(b, c));
  }

  /** After gravity every column is `Empty` cells above candies. */
  lemma GravitySettles(b: Board, c: int)
    requires IsBoard(b) && 0 <= c < BOARD_SIZE
    ensures IsSettledLine(Column(Settle(b), c))
  {
    SettleColumn(b, c);
    CompactSettles(Column(b, c));
  }

  /** Gravity changes nothing on a board whose columns have already settled;
      in particular applying it twice is applying it once. */
  lemma GravityIdempotent(b: Board)
    requires IsBoard(b)
    ensures (forall c :: 0 <= c < BOARD_SIZE ==> IsSettledLine(Column(b, c))) ==> Settle(b) == b
    ensures Settle(Settle(b)) == Settle(b)
  {
    if forall c :: 0 <= c < BOARD_SIZE ==> IsSettledLine(Column(b, c)) {
      forall c | 0 <= c < BOARD_SIZE
        ensures Column(Settle(b), c) == Column(b, c)
      {
        SettleColumn(b, c);
        SettledIsCompact(Column(b, c));
      }
      BoardExtByColumns(Settle(b), b);
    }
    forall c | 0 <= c < BOARD_SIZE
      ensures Column(Settle(Settle(b)), c) == Column(Settle(b), c)
    {
      SettleColumn(Settle(b), c);
      SettleColumn(b, c);
      CompactIdempotent(Column(b, c));
    }
    BoardExtByColumns(Settle(Settle(b)), Settle(b));
  }

  /** The column while applyGravity scans it bottom-up: the cells above and
      at `r` not yet visited, holes from `r + 1` to the write cursor `w`,
      and below `w` the visited candies in their order. */
  function ScanLayout(col: seq<Color>, r: int, w: int): (line: seq<Color>)
    requires -1 <= r <= w < |col|
    ensures |line| == r + 1 + (w - r) + |NonEmpty(col[r + 1..])|
  {
    col[..r + 1] + Empties(w - r) + NonEmpty(col[r + 1..])
  }

  lemma ScanLayoutAt(col: seq<Color>, r: int, w: int, i: int)
    requires -1 <= r <= w < |col| && 0 <= i < |ScanLayout(col, r, w)|
    ensures ScanLayout(col, r, w)[i] ==
              if i <= r then col[i] else if i <= w then Empty else NonEmpty(col[r + 1..])[i - w - 1]
  {
  }

  /** One step of the scan: a candy at `r` is written at the cursor (and its
      cell emptied when it moved), a hole is skipped. */
  lemma ScanStepCandy(col: seq<Color>, r: int, w: int)
    requires 0 <= r <= w < |col| && w + 1 + |NonEmpty(col[r + 1..])| == |col| && col[r] != Empty
    ensures w != r ==> ScanLayout(col, r, w)[w := col[r]][r := Empty] == ScanLayout(col, r - 1, w - 1)
    ensures w == r ==> ScanLayout(col, r, w)[w := col[r]] == ScanLayout(col, r - 1, w - 1)
  {
    NonEmptyStep(col, r);
    var before := ScanLayout(col, r, w);
    var after := ScanLayout(col, r - 1, w - 1);
    var next := if w != r then before[w := col[r]][r := Empty] else before[w := col[r]];
    forall i | 0 <= i < |next|
      ensures next[i] == after[i]
    {
      ScanLayoutAt(col, r, w, i);
      ScanLayoutAt(col, r - 1, w - 1, i);
    }
  }

  lemma ScanStepHole(col: seq<Color>, r: int, w: int)
    requires 0 <= r <= w < |col| && w + 1 + |NonEmpty(col[r + 1..])| == |col| && col[r] == Empty
    ensures ScanLayout(col, r, w) == ScanLayout(col, r - 1, w)
  {
    NonEmptyStep(col, r);
    var before := ScanLayout(col, r, w);
    var after := ScanLayout(col, r - 1, w);
    forall i | 0 <= i < |before|
      ensures before[i] == after[i]
    {
      ScanLayoutAt(col, r, w, i);
      ScanLayoutAt(col, r - 1, w, i);
    }
  }

  /** When the scan is through, the column is compacted. */
  lemma ScanDone(col: seq<Color>, w: int)
    requires -1 <= w < |col| && w + 1 + |NonEmpty(col)| == |col|
    ensures ScanLayout(col, -1, w) == Compact(col)
    ensures forall i :: 0 <= i <= w ==> Compact(col)[i] == Empty
  {
    assert col[0..] == col;
  }

  /** Gravity with the source's write cursor, column by column. */
  method ApplyGravity(b: Board) returns (nb: Board)
    requires IsBoard(b)
    ensures nb == Settle(b)
  {
    nb := b;
    for c := 0 to BOARD_SIZE
      invariant IsBoard(nb)
      invariant forall j :: 0 <= j < c ==> Column(nb, j) == Compact(Column(b, j))
      invariant forall j :: c <= j < BOARD_SIZE ==> Column(nb, j) == Column(b, j)
    {
      nb := DropColumn(nb, c);
    }
    forall j | 0 <= j < BOARD_SIZE
      ensures Column(nb, j) == Column(Settle(b), j)
    {
      SettleColumn(b, j);
    }
    BoardExtByColumns(nb, Settle(b));
  }

  /** One column of applyGravity: scanning from the bottom, each candy is
      moved down to `writeRow` (its old cell cleared when it moved), then
      the cells above the cursor are emptied. */
  method DropColumn(b: Board, c: int) returns (nb: Board)
    requires IsBoard(b) && 0 <= c < BOARD_SIZE
    ensures IsBoard(nb)
    ensures Column(nb, c) == Compact(Column(b, c))
    ensures forall j :: 0 <= j < BOARD_SIZE && j != c ==> Column(nb, j) == Column(b, j)
  {
    nb := b;
    ghost var col := Column(b, c);
    var writeRow: int := BOARD_SIZE - 1;
    var r: int := BOARD_SIZE - 1;
    assert col[BOARD_SIZE..] == [];
    while r >= 0
      invariant -1 <= r <= writeRow < BOARD_SIZE
      invariant IsBoard(nb)
      invariant writeRow + 1 + |NonEmpty(col[r + 1..])| == BOARD_SIZE
      invariant Column(nb, c) == ScanLayout(col, r, writeRow)
      invariant forall j :: 0 <= j < BOARD_SIZE && j != c ==> Column(nb, j) == Column(b, j)
    {
      NonEmptyStep(col, r);
      ScanLayoutAt(col, r, writeRow, r);
      if nb[r][c] != Empty {
        ScanStepCandy(col, r, writeRow);
        ColumnsAfterSetCell(nb, writeRow, c, nb[r][c]);
        nb := SetCell(nb, writeRow, c, nb[r][c]);
        if writeRow != r {
          ColumnsAfterSetCell(nb, r, c, Empty);
          nb := SetCell(nb, r, c, Empty);
        }
        writeRow := writeRow - 1;
      } else {
        ScanStepHole(col, r, writeRow);
      }
      r := r - 1;
    }
    ScanDone(col, writeRow);
    ghost var top := writeRow;
    while writeRow >= 0
      invariant -1 <= writeRow <= top
      invariant IsBoard(nb)
      invariant Column(nb, c) == Compact(col)
      invariant forall j :: 0 <= j < BOARD_SIZE && j != c ==> Column(nb, j) == Column(b, j)
    {
      ColumnsAfterSetCell(nb, writeRow, c, Empty);
      nb := SetCell(nb, writeRow, c, Empty);
      writeRow := writeRow - 1;
    }
  }

  // ---------------------------------------------------------------------
  // refillBoard and the marking and clearing of matched cells
  // ---------------------------------------------------------------------

  /** refillBoard: every `Empty` cell takes the colour drawn for it in
      `draws`; every candy stays where it is. */
  function Refill(b: Board, draws: Board): (nb: Board)
    requires IsBoard(b) && IsBoard(draws)
    ensures IsBoard(nb)
    ensures forall r, c :: 0 <= r < BOARD_SIZE && 0 <= c < BOARD_SIZE && b[r][c] != Empty ==> nb[r][c] == b[r][c]
    ensures forall r, c :: 0 <= r < BOARD_SIZE && 0 <= c < BOARD_SIZE && b[r][c] == Empty ==> nb[r][c] == draws[r][c]
  {
    seq(BOARD_SIZE, r requires 0 <= r < BOARD_SIZE =>
      seq(BOARD_SIZE, c requires 0 <= c < BOARD_SIZE => if b[r][c] == Empty then draws[r][c] else b[r][c]))
  }

  /** With draws from a palette without `Empty`, refill leaves no hole, and
      every cell is either an old candy or a palette colour. */
  lemma RefillFillsEverything(b: Board, draws: Board, palette: seq<Color>)
    requires IsBoard(b) && IsDraw(draws, palette) && Empty !in palette
    ensures NoEmpty(Refill(b, draws))
    ensures forall r, c :: 0 <= r < BOARD_SIZE && 0 <= c < BOARD_SIZE ==>
              Refill(b, draws)[r][c] == b[r][c] || Refill(b, draws)[r][c] in palette
  {
  }

  /** Refill changes nothing on a board without holes. */
  lemma RefillFullBoard(b: Board, draws: Board)
    requires IsBoard(b) && IsBoard(draws) && NoEmpty(b)
    ensures Refill(b, draws) == b
  {
    BoardExt(Refill(b, draws), b);
  }

  /** The matched cells marked and then emptied (App.tsx marks them with
      `isMatched` and turns every marked cell into `Empty`). */
  function Clear(b: Board, m: set<Pos>): (nb: Board)
    requires IsBoard(b)
    ensures IsBoard(nb)
  {
    seq(BOARD_SIZE, r requires 0 <= r < BOARD_SIZE =>
      seq(BOARD_SIZE, c requires 0 <= c < BOARD_SIZE => if Pos(r, c) in m then Empty else b[r][c]))
  }

  /** On a full board, clearing the matches empties exactly the matched
      cells and keeps every other candy. */
  lemma ClearEmptiesExactlyMatches(b: Board, p: Pos)
    requires IsBoard(b) && NoEmpty(b) && InBounds(p)
    ensures Clear(b, MatchSet(b))[p.row][p.col] == Empty <==> Matched(b, p)
    ensures !Matched(b, p) ==> Clear(b, MatchSet(b))[p.row][p.col] == b[p.row][p.col]
  {
  }

  // ---------------------------------------------------------------------
  // The processMatches cascade
  // ---------------------------------------------------------------------

  /** One cascade round after scoring: clear the matches, apply gravity,
      refill from `draws`. */
  function Step(b: Board, draws: Board): (nb: Board)
    requires IsBoard(b) && IsBoard(draws)
    ensures IsBoard(nb)
  {
    Refill(Settle(Clear(b, MatchSet(b))), draws)
  }

  /** Steps 2 to 4 of a round of processMatches: the cells listed in
      `matches` are emptied, gravity is applied and the holes refilled. */
  method ClearDropRefill(b: Board, matches: seq<Pos>, draws: Board) returns (nb: Board)
    requires IsBoard(b) && IsBoard(draws) && (set p | p in matches) == MatchSet(b)
    ensures nb == Step(b, draws)
  {
    var matchesSet := set p | p in matches;
    var cleared := Clear(b, matchesSet);
    var dropped := ApplyGravity(cleared);
    nb := Refill(dropped, draws);
  }

  predicate AllDraws(refills: seq<Board>, palette: seq<Color>) {
    forall i :: 0 <= i < |refills| ==> IsDraw(refills[i], palette)
  }

  predicate AllBoards(refills: seq<Board>) {
    forall i :: 0 <= i < |refills| ==> IsBoard(refills[i])
  }

  /** Where the cascade ends: the final board, the points it scores and
      whether it stopped because no match was left (`settled`) rather than
      because the draws ran out. */
  datatype Outcome = Outcome(board: Board, points: int, settled: bool)

  /** The points of one round: ten per cleared cell, times the round's
      combo multiplier. */
  function RoundPoints(cleared: nat, combo: nat): (points: nat)
    ensures cleared >= 3 && combo >= 1 ==> points >= 30
  {
    cleared * 10 * combo
  }

  /** The cascade from `b`, the k-th round (k counted from `combo`) scoring
      ten points per matched cell times k. One board of draws is consumed
      per round. */
  function Cascade(b: Board, refills: seq<Board>, combo: nat): (o: Outcome)
    requires IsBoard(b) && AllBoards(refills)
    ensures IsBoard(o.board)
    ensures o.settled ==> MatchSet(o.board) == {}
    ensures o.points >= 0
    ensures MatchSet(b) == {} ==> o.board == b && o.points == 0 && o.settled
    decreases |refills|
  {
    if MatchSet(b) == {} then Outcome(b, 0, true)
    else if refills == [] then Outcome(b, 0, false)
    else
      var rest := Cascade(Step(b, refills[0]), refills[1..], combo + 1);
      Outcome(rest.board, RoundPoints(|MatchSet(b)|, combo) + rest.points, rest.settled)
  }

  /** With draws from a palette without `Empty`, every cascade round leaves
      a full board. */
  lemma StepKeepsFull(b: Board, draws: Board, palette: seq<Color>)
    requires IsBoard(b) && IsDraw(draws, palette) && Empty !in palette
    ensures NoEmpty(Step(b, draws))
  {
    RefillFillsEverything(Settle(Clear(b, MatchSet(b))), draws, palette);
  }

  lemma {:induction false} CascadeKeepsFull(b: Board, refills: seq<Board>, combo: nat, palette: seq<Color>)
    requires IsBoard(b) && NoEmpty(b) && AllDraws(refills, palette) && Empty !in palette
    ensures NoEmpty(Cascade(b, refills, combo).board)
    decreases |refills|
  {
    if MatchSet(b) != {} && refills != [] {
      StepKeepsFull(b, refills[0], palette);
      CascadeKeepsFull(Step(b, refills[0]), refills[1..], combo + 1, palette);
    }
  }

  /** A cascade with a match and draws left is its first round followed by
      the cascade from the board that round leaves, the multiplier one
      higher. */
  lemma CascadeUnfold(b: Board, refills: seq<Board>, combo: nat)
    requires IsBoard(b) && AllBoards(refills) && MatchSet(b) != {} && refills != []
    ensures var rest := Cascade(Step(b, refills[0]), refills[1..], combo + 1);
            Cascade(b, refills, combo) == Outcome(rest.board, RoundPoints(|MatchSet(b)|, combo) + rest.points, rest.settled)
  {
  }

  /** A round that clears something scores at least thirty points times its
      multiplier. */
  lemma CascadeRoundPoints(b: Board, refills: seq<Board>, combo: nat)
    requires IsBoard(b) && AllBoards(refills) && MatchSet(b) != {} && refills != []
    ensures Cascade(b, refills, combo).points >= RoundPoints(|MatchSet(b)|, combo)
    ensures combo >= 1 ==> Cascade(b, refills, combo).points >= 30
  {
    MatchSetAtLeastThree(b);
    CascadeUnfold(b, refills, combo);
  }

  /** A single run of three that leaves no new match scores exactly 30. */
  lemma SingleRunScoresThirty(b: Board, refills: seq<Board>)
    requires IsBoard(b) && AllBoards(refills) && refills != []
    requires |MatchSet(b)| == 3 && MatchSet(Step(b, refills[0])) == {}
    ensures Cascade(b, refills, 1).points == 30
  {
    CascadeUnfold(b, refills, 1);
  }
}
