/** The game's fixed data: the colour enumeration (with its `Empty` marker),
    positions, the board shape, the game states and the level table. */
module Types {

  /** The board is always BOARD_SIZE x BOARD_SIZE. */
  const BOARD_SIZE: nat := 8

  /** Candy colours; `Empty` marks a cell with no candy. */
  datatype Color = Red | Blue | Green | Yellow | Purple | Orange | Empty

  /** A (row, column) pair; rows count from the top. */
  datatype Pos = Pos(row: int, col: int)

  /** A value that may be absent (`null` in the source). */
  datatype Option<T> = None | Some(value: T)

  /** A board is a grid of rows; `IsBoard` says it has the fixed shape. */
  type Board = seq<seq<Color>>

  datatype GameState = Idle | Swapping | Processing | GameOver | LevelComplete

  datatype LevelConfig = LevelConfig(level: nat, targetScore: nat, moves: nat, colors: seq<Color>)

  /** The level table, in play order. */
  const LEVELS: seq<LevelConfig> := [
    LevelConfig(1, 1000, 15, [Red, Blue, Green, Yellow]),
    LevelConfig(2, 2500, 20, [Red, Blue, Green, Yellow, Purple]),
    LevelConfig(3, 4000, 20, [Red, Blue, Green, Yellow, Purple, Orange]),
    LevelConfig(4, 6000, 18, [Red, Blue, Green, Yellow, Purple, Orange])
  ]

  predicate IsBoard(b: Board) {
    |b| == BOARD_SIZE && forall r :: 0 <= r < BOARD_SIZE ==> |b[r]| == BOARD_SIZE
  }

  predicate InBounds(p: Pos) {
    0 <= p.row < BOARD_SIZE && 0 <= p.col < BOARD_SIZE
  }

  /** A palette the generators can draw from: it never yields `Empty`, and it
      has three distinct colours, so that some colour always avoids the (at
      most two) colours that would complete a run during board creation. */
  predicate ValidPalette(palette: seq<Color>) {
    Empty !in palette &&
    exists i, j, k :: 0 <= i < j < k < |palette| &&
      palette[i] != palette[j] && palette[i] != palette[k] && palette[j] != palette[k]
  }

  /** Every level has a palette the generators can use, a positive target
      and a positive move budget. */
  lemma LevelsWellFormed(i: nat)
    requires i < |LEVELS|
    ensures ValidPalette(LEVELS[i].colors)
    ensures LEVELS[i].targetScore > 0 && LEVELS[i].moves > 0
    ensures LEVELS[i].level == i + 1
  {
    var p := LEVELS[i].colors;
    assert p[0] == Red && p[1] == Blue && p[2] == Green;
    assert 0 <= 0 < 1 < 2 < |p| && p[0] != p[1] && p[0] != p[2] && p[1] != p[2];
  }
}
