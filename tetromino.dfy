/** The seven piece kinds, their 4x4 occupancy matrices and colours, and the
    90-degree clockwise rotation of a square matrix. */
module Tetromino {

  /** The piece kinds, in the order the game lists their names. */
  datatype Kind = I | O | T | S | Z | J | L

  /** A shape matrix: a cell is occupied when it is non-zero. */
  type Matrix = seq<seq<int>>

  /** `m` has `n` rows of `n` cells each. */
  predicate IsSquare(m: Matrix, n: nat) {
    |m| == n && forall r :: 0 <= r < n ==> |m[r]| == n
  }

  /** Some cell of `m` is occupied. */
  ghost predicate HasBlock(m: Matrix) {
    exists r, c :: 0 <= r < |m| && 0 <= c < |m[r]| && m[r][c] != 0
  }

  /** The unrotated shape of each kind (the SHAPES table): a 4x4 matrix of
      zeros and ones whose top row is empty. */
  function ShapeOf(k: Kind): (shape: Matrix)
    ensures IsSquare(shape, 4)
    ensures forall r, c :: 0 <= r < 4 && 0 <= c < 4 ==> shape[r][c] == 0 || shape[r][c] == 1
    ensures forall c :: 0 <= c < 4 ==> shape[0][c] == 0
  {
    match k
    case I => [[0, 0, 0, 0], [1, 1, 1, 1], [0, 0, 0, 0], [0, 0, 0, 0]]
    case O => [[0, 0, 0, 0], [0, 1, 1, 0], [0, 1, 1, 0], [0, 0, 0, 0]]
    case T => [[0, 0, 0, 0], [0, 1, 1, 1], [0, 0, 1, 0], [0, 0, 0, 0]]
    case S => [[0, 0, 0, 0], [0, 0, 1, 1], [0, 1, 1, 0], [0, 0, 0, 0]]
    case Z => [[0, 0, 0, 0], [0, 1, 1, 0], [0, 0, 1, 1], [0, 0, 0, 0]]
    case J => [[0, 0, 0, 0], [0, 1, 1, 1], [0, 0, 0, 1], [0, 0, 0, 0]]
    case L => [[0, 0, 0, 0], [0, 1, 1, 1], [0, 1, 0, 0], [0, 0, 0, 0]]
  }

  /** The colour each kind is drawn and settled in (the COLORS table): a
      `#rrggbb` colour code. */
  function ColorOf(k: Kind): (color: string)
    ensures |color| == 7 && color[0] == '#'
    ensures forall i :: 1 <= i < 7 ==> color[i] in "0123456789abcdef"
  {
    match k
    case I => "#00ffff"
    case O => "#ffff00"
    case T => "#ff00ff"
    case S => "#00ff00"
    case Z => "#ff0000"
    case J => "#0000ff"
    case L => "#ff8800"
  }

  /** Every base shape is a 4x4 matrix with at least one occupied cell. */
  lemma ShapeWellFormed(k: Kind)
    ensures IsSquare(ShapeOf(k), 4) && HasBlock(ShapeOf(k))
  {
    assert ShapeOf(k)[1][2] != 0;
  }

  /** Column `c` of `m` from row `n-1-j` up to the top row. */
  function ColumnFrom(m: Matrix, c: nat, j: nat): (col: seq<int>)
    requires IsSquare(m, |m|) && c < |m| && j <= |m|
    ensures |col| == |m| - j
    decreases |m| - j
  {
    if j == |m| then [] else [m[|m| - 1 - j][c]] + ColumnFrom(m, c, j + 1)
  }

  lemma {:induction false} ColumnFromAt(m: Matrix, c: nat, j: nat)
    requires IsSquare(m, |m|) && c < |m| && j <= |m|
    ensures forall i :: 0 <= i < |m| - j ==> ColumnFrom(m, c, j)[i] == m[|m| - 1 - (j + i)][c]
    decreases |m| - j
  {
    if j < |m| {
      ColumnFromAt(m, c, j + 1);
    }
  }

  /** Column `c` of `m` read from the bottom row up. */
  function ColumnUp(m: Matrix, c: nat): (col: seq<int>)
    requires IsSquare(m, |m|) && c < |m|
    ensures |col| == |m|
  {
    ColumnFrom(m, c, 0)
  }

  /** Rows `k` onwards of the turned matrix: the columns of `m` from `k` on,
      each read bottom-up. */
  function TurnedFrom(m: Matrix, k: nat): (r: Matrix)
    requires IsSquare(m, |m|) && k <= |m|
    ensures |r| == |m| - k && forall i :: 0 <= i < |r| ==> |r[i]| == |m|
    decreases |m| - k
  {
    if k == |m| then [] else [ColumnUp(m, k)] + TurnedFrom(m, k + 1)
  }

  /** The clockwise quarter turn: column `c` read bottom-up becomes row `c`. */
  function Rotated(m: Matrix): (r: Matrix)
    requires IsSquare(m, |m|)
    ensures IsSquare(r, |m|)
  {
    TurnedFrom(m, 0)
  }

  lemma {:induction false} TurnedFromAt(m: Matrix, k: nat)
    requires IsSquare(m, |m|) && k <= |m|
    ensures forall i, j :: 0 <= i < |m| - k && 0 <= j < |m| ==>
      TurnedFrom(m, k)[i][j] == m[|m| - 1 - j][k + i]
    decreases |m| - k
  {
    if k < |m| {
      TurnedFromAt(m, k + 1);
      ColumnFromAt(m, k, 0);
    }
  }

  /** The cell at row r, column c of `m` moves to row c, column N-1-r. */
  lemma RotatedAt(m: Matrix)
    requires IsSquare(m, |m|)
    ensures forall i, j :: 0 <= i < |m| && 0 <= j < |m| ==>
      Rotated(m)[i][j] == m[|m| - 1 - j][i]
  {
    TurnedFromAt(m, 0);
  }

  /** Builds the rotated matrix cell by cell into a fresh all-zero matrix. */
  method RotateMatrix(m: Matrix) returns (rotated: Matrix)
    requires IsSquare(m, |m|)
    ensures rotated == Rotated(m)
  {
    var n := |m|;
    rotated := seq(n, _ => seq(n, _ => 0));
    for row := 0 to n
      invariant IsSquare(rotated, n)
      invariant forall i, j :: 0 <= i < n && 0 <= j < n ==>
        rotated[i][j] == if n - 1 - j < row then m[n - 1 - j][i] else 0
    {
      for col := 0 to n
        invariant IsSquare(rotated, n)
        invariant forall i, j :: 0 <= i < n && 0 <= j < n ==>
          rotated[i][j] ==
            if n - 1 - j < row || (n - 1 - j == row && i < col) then m[n - 1 - j][i] else 0
      {
        rotated := rotated[col := rotated[col][n - 1 - row := m[row][col]]];
      }
    }
    var spec := Rotated(m);
    RotatedAt(m);
    forall i | 0 <= i < n
      ensures rotated[i] == spec[i]
    {
    }
  }

  /** Two quarter turns send the cell at (i, j) to (N-1-i, N-1-j). */
  lemma HalfTurn(m: Matrix)
    requires IsSquare(m, |m|)
    ensures var h := Rotated(Rotated(m));
      forall i, j :: 0 <= i < |m| && 0 <= j < |m| ==> h[i][j] == m[|m| - 1 - i][|m| - 1 - j]
  {
    RotatedAt(m);
    RotatedAt(Rotated(m));
  }

  /** Four quarter turns give back the original matrix. */
  lemma RotateFourTimes(m: Matrix)
    requires IsSquare(m, |m|)
    ensures Rotated(Rotated(Rotated(Rotated(m)))) == m
  {
    var n := |m|;
    var h := Rotated(Rotated(m));
    HalfTurn(m);
    HalfTurn(h);
    var f := Rotated(Rotated(h));
    assert forall i, j :: 0 <= i < n && 0 <= j < n ==> f[i][j] == m[i][j];
    forall i | 0 <= i < n
      ensures f[i] == m[i]
    {
    }
  }

  /** The coordinates of the occupied cells of a square matrix. */
  ghost function Cells(m: Matrix): set<(int, int)>
    requires IsSquare(m, |m|)
  {
    set r, c | 0 <= r < |m| && 0 <= c < |m| && m[r][c] != 0 :: (r, c)
  }

  /** Where a quarter turn of an n x n matrix moves the cell at `q`. */
  function Turn(q: (int, int), n: int): (int, int) {
    (q.1, n - 1 - q.0)
  }

  /** The occupied cells of the rotated matrix are the turned occupied cells. */
  lemma RotatedCells(m: Matrix)
    requires IsSquare(m, |m|)
    ensures Cells(Rotated(m)) == set q | q in Cells(m) :: Turn(q, |m|)
  {
    var n := |m|;
    var rot := Rotated(m);
    RotatedAt(m);
    forall q | q in Cells(rot)
      ensures q in set q' | q' in Cells(m) :: Turn(q', n)
    {
      var src := (n - 1 - q.1, q.0);
      assert src in Cells(m) && Turn(src, n) == q;
    }
  }

  /** A turn is injective, so turning a set of cells keeps its size. */
  lemma {:induction false} TurnKeepsSize(s: set<(int, int)>, n: int)
    ensures |set q | q in s :: Turn(q, n)| == |s|
    decreases |s|
  {
    if s != {} {
      var q :| q in s;
      var rest := s - {q};
      TurnKeepsSize(rest, n);
      var image := set q' | q' in s :: Turn(q', n);
      var restImage := set q' | q' in rest :: Turn(q', n);
      assert image == restImage + {Turn(q, n)};
      assert Turn(q, n) !in restImage;
    }
  }

  /** Rotation keeps the number of occupied cells. */
  lemma RotateKeepsCellCount(m: Matrix)
    requires IsSquare(m, |m|)
    ensures |Cells(Rotated(m))| == |Cells(m)|
  {
    RotatedCells(m);
    TurnKeepsSize(Cells(m), |m|);
  }

  /** Rotation of a shape with an occupied cell still has one. */
  lemma RotatedHasBlock(m: Matrix)
    requires IsSquare(m, |m|) && HasBlock(m)
    ensures HasBlock(Rotated(m))
  {
    var n := |m|;
    var r, c :| 0 <= r < n && 0 <= c < n && m[r][c] != 0;
    RotatedAt(m);
    assert Rotated(m)[c][n - 1 - r] == m[r][c];
  }
}
