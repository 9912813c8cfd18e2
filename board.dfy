/** The playing field: a 20-row by 10-column grid of settled cells, the
    falling piece, the collision test, the landing row and the merge of a
    piece into the grid. */
module Board {
  import opened Tetromino

  const ROWS: nat := 20
  const COLS: nat := 10

  /** A settled cell: empty (0 in the game) or the colour of the piece that locked there. */
  datatype Cell = Empty | Filled(color: string)

  /** The grid, as a sequence of rows from top (index 0) to bottom. */
  type Grid = seq<seq<Cell>>

  predicate IsGrid(b: Grid) {
    |b| == ROWS && forall y :: 0 <= y < ROWS ==> |b[y]| == COLS
  }

  function EmptyRow(): (row: seq<Cell>)
    ensures |row| == COLS && forall x :: 0 <= x < COLS ==> row[x] == Empty
  {
    seq(COLS, _ => Empty)
  }

  function EmptyBoard(): (b: Grid)
    ensures IsGrid(b)
    ensures forall y, x :: 0 <= y < ROWS && 0 <= x < COLS ==> b[y][x] == Empty
  {
    seq(ROWS, _ => EmptyRow())
  }

  /** A piece: its current shape matrix, colour, kind and the board position
      of the top-left corner of its 4x4 frame. */
  datatype Piece = Piece(shape: Matrix, color: string, name: Kind, x: int, y: int)

  /** The shape of a piece in play is a 4x4 matrix with an occupied cell. */
  ghost predicate WellShaped(p: Piece) {
    IsSquare(p.shape, 4) && HasBlock(p.shape)
  }

  /** A new piece of kind `k`, at the spawn position: centred, in the top row. */
  function CreatePiece(k: Kind): (p: Piece)
    ensures WellShaped(p)
    ensures p.x + 2 == COLS / 2 && p.y == 0
  {
    ShapeWellFormed(k);
    Piece(ShapeOf(k), ColorOf(k), k, COLS / 2 - 2, 0)
  }

  /** A shape cell landing at column `x`, row `y` is blocked: it is past a
      wall or the floor, or it is on the board over a settled cell. Rows
      above the board (y < 0) are only checked against the walls. */
  predicate Blocked(b: Grid, x: int, y: int)
    requires IsGrid(b)
  {
    x < 0 || x >= COLS || y >= ROWS || (y >= 0 && b[y][x] != Empty)
  }

  /** Some occupied cell of `shape`, with its frame at (x, y), is blocked.
      A placement that does not collide keeps every occupied cell between
      the walls and above the floor. */
  ghost predicate Collides(b: Grid, x: int, y: int, shape: Matrix)
    requires IsGrid(b)
    ensures !Collides(b, x, y, shape) ==>
      forall r, c :: 0 <= r < |shape| && 0 <= c < |shape[r]| && shape[r][c] != 0 ==>
        0 <= x + c < COLS && y + r < ROWS
  {
    exists r, c :: 0 <= r < |shape| && 0 <= c < |shape[r]| && shape[r][c] != 0 && Blocked(b, x + c, y + r)
  }

  /** The collision test: scans the shape row by row and stops at the first
      blocked occupied cell. */
  method CheckCollision(b: Grid, x: int, y: int, shape: Matrix) returns (hit: bool)
    requires IsGrid(b)
    ensures hit <==> Collides(b, x, y, shape)
  {
    for row := 0 to |shape|
      invariant forall r, c :: 0 <= r < row && 0 <= c < |shape[r]| && shape[r][c] != 0 ==>
        !Blocked(b, x + c, y + r)
    {
      for col := 0 to |shape[row]|
        invariant forall r, c :: 0 <= r < row && 0 <= c < |shape[r]| && shape[r][c] != 0 ==>
          !Blocked(b, x + c, y + r)
        invariant forall c :: 0 <= c < col && shape[row][c] != 0 ==> !Blocked(b, x + c, y + row)
      {
        if shape[row][col] != 0 {
          var newX := x + col;
          var newY := y + row;
          if newX < 0 || newX >= COLS || newY >= ROWS {
            return true;
          }
          if newY >= 0 && b[newY][newX] != Empty {
            return true;
          }
        }
      }
    }
    return false;
  }

  /** A shape with an occupied cell collides once its frame is at or below
      the floor row, so a free placement has its frame above the floor. */
  lemma FloorStops(b: Grid, x: int, y: int, shape: Matrix)
    requires IsGrid(b) && HasBlock(shape)
    ensures !Collides(b, x, y, shape) ==> y < ROWS
  {
    var r, c :| 0 <= r < |shape| && 0 <= c < |shape[r]| && shape[r][c] != 0;
    if y >= ROWS {
      assert Blocked(b, x + c, y + r);
    }
  }

  /** The lowest row a shape falling straight down from row `y` reaches: every
      row after `y` down to the result is free, the next one is not. */
  ghost function DropRow(b: Grid, x: int, y: int, shape: Matrix): (g: int)
    requires IsGrid(b) && HasBlock(shape)
    ensures y <= g && Collides(b, x, g + 1, shape)
    decreases ROWS - y
  {
    if Collides(b, x, y + 1, shape) then y
    else
      FloorStops(b, x, y + 1, shape);
      DropRow(b, x, y + 1, shape)
  }

  /** Every row a shape passes through on its way down to the landing row is free. */
  lemma {:induction false} DropRowPassesFreely(b: Grid, x: int, y: int, shape: Matrix)
    requires IsGrid(b) && HasBlock(shape)
    ensures forall k :: y < k <= DropRow(b, x, y, shape) ==> !Collides(b, x, k, shape)
    decreases ROWS - y
  {
    if !Collides(b, x, y + 1, shape) {
      FloorStops(b, x, y + 1, shape);
      DropRowPassesFreely(b, x, y + 1, shape);
    }
  }

  /** The board cell at column `x`, row `y` lies under an occupied cell of the piece. */
  predicate Covers(p: Piece, x: int, y: int) {
    0 <= y - p.y < |p.shape| && 0 <= x - p.x < |p.shape[y - p.y]| && p.shape[y - p.y][x - p.x] != 0
  }

  /** The grid after the piece's colour is written into every on-board cell it covers. */
  function Merge(b: Grid, p: Piece): (m: Grid)
    requires IsGrid(b)
    ensures IsGrid(m)
  {
    seq(ROWS, y requires 0 <= y < ROWS =>
      seq(COLS, x requires 0 <= x < COLS => if Covers(p, x, y) then Filled(p.color) else b[y][x]))
  }

  /** Locking a piece that does not collide writes its colour at every
      occupied cell that is not above the board, all of which are inside the
      grid, and changes no cell that was not empty. */
  lemma MergeOfFreePiece(b: Grid, p: Piece)
    requires IsGrid(b) && !Collides(b, p.x, p.y, p.shape)
    ensures forall r, c :: 0 <= r < |p.shape| && 0 <= c < |p.shape[r]| && p.shape[r][c] != 0 && p.y + r >= 0 ==>
      0 <= p.x + c < COLS && p.y + r < ROWS && Merge(b, p)[p.y + r][p.x + c] == Filled(p.color)
    ensures forall y, x :: 0 <= y < ROWS && 0 <= x < COLS && Merge(b, p)[y][x] != b[y][x] ==>
      b[y][x] == Empty && Covers(p, x, y)
  {
    var m := Merge(b, p);
    forall r, c | 0 <= r < |p.shape| && 0 <= c < |p.shape[r]| && p.shape[r][c] != 0 && p.y + r >= 0
      ensures 0 <= p.x + c < COLS && p.y + r < ROWS && m[p.y + r][p.x + c] == Filled(p.color)
    {
      assert !Blocked(b, p.x + c, p.y + r);
      assert Covers(p, p.x + c, p.y + r);
    }
    forall y, x | 0 <= y < ROWS && 0 <= x < COLS && m[y][x] != b[y][x]
      ensures b[y][x] == Empty && Covers(p, x, y)
    {
      assert Covers(p, x, y);
      var r, c := y - p.y, x - p.x;
      assert p.shape[r][c] != 0;
      assert !Blocked(b, p.x + c, p.y + r);
    }
  }

  /** A newly spawned piece of any kind fits on the empty board. */
  lemma SpawnFits(k: Kind)
    ensures !Collides(EmptyBoard(), CreatePiece(k).x, CreatePiece(k).y, CreatePiece(k).shape)
  {
    var p := CreatePiece(k);
    forall r, c | 0 <= r < |p.shape| && 0 <= c < |p.shape[r]| && p.shape[r][c] != 0
      ensures !Blocked(EmptyBoard(), p.x + c, p.y + r)
    {
    }
  }
}
