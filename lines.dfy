/** Line clearing as a transform on the sequence of rows: full rows are
    removed and as many empty rows are added on top. */
module Lines {
  import opened Tetromino
  import opened Board

  /** Every cell of the row is settled. */
  predicate IsFull(row: seq<Cell>) {
    forall x :: 0 <= x < |row| ==> row[x] != Empty
  }

  predicate NoFullRow(rows: seq<seq<Cell>>) {
    forall y :: 0 <= y < |rows| ==> !IsFull(rows[y])
  }

  /** The number of full rows. */
  function CountFull(rows: seq<seq<Cell>>): nat {
    if rows == [] then 0
    else (if IsFull(rows[0]) then 1 else 0) + CountFull(rows[1..])
  }

  /** The rows that are not full, in their original order. */
  function Kept(rows: seq<seq<Cell>>): (kept: seq<seq<Cell>>)
    ensures |kept| + CountFull(rows) == |rows|
  {
    if rows == [] then []
    else (if IsFull(rows[0]) then [] else [rows[0]]) + Kept(rows[1..])
  }

  /** No kept row is full. */
  lemma {:induction false} KeptHasNoFullRow(rows: seq<seq<Cell>>)
    ensures NoFullRow(Kept(rows))
  {
    if rows != [] {
      KeptHasNoFullRow(rows[1..]);
    }
  }

  /** An empty row is not full, so the empty board has no full row. */
  lemma EmptyBoardHasNoFullRow()
    ensures !IsFull(EmptyRow()) && NoFullRow(EmptyBoard())
  {
    assert EmptyRow()[0] == Empty;
  }

  /** `k` empty rows. */
  function Blank(k: nat): (rows: Grid)
    ensures |rows| == k && forall i :: 0 <= i < k ==> rows[i] == EmptyRow()
  {
    seq(k, _ => EmptyRow())
  }

  /** Keeping rows keeps their width. */
  lemma {:induction false} KeptWidth(rows: seq<seq<Cell>>, n: nat)
    ensures (forall y :: 0 <= y < |rows| ==> |rows[y]| == n) ==>
      forall y :: 0 <= y < |Kept(rows)| ==> |Kept(rows)[y]| == n
  {
    if rows != [] {
      KeptWidth(rows[1..], n);
      assert forall y :: 0 <= y < |rows[1..]| ==> rows[1..][y] == rows[y + 1];
    }
  }

  /** The grid after clearing: one empty row on top for each full row removed,
      then the remaining rows in their original order. It has the size of the
      grid it came from and no full row. */
  function Compact(b: Grid): (c: Grid)
    ensures |c| == |b|
    ensures IsGrid(b) ==> IsGrid(c)
    ensures NoFullRow(c)
  {
    var top := Blank(CountFull(b));
    var kept := Kept(b);
    assert !IsFull(EmptyRow()) by {
      assert EmptyRow()[0] == Empty;
    }
    KeptWidth(b, COLS);
    KeptHasNoFullRow(b);
    assert forall y :: 0 <= y < |kept| ==> (top + kept)[|top| + y] == kept[y];
    top + kept
  }

  /** Clearing commutes with splitting the rows: it keeps their order. */
  lemma {:induction false} KeptAppend(a: seq<seq<Cell>>, b: seq<seq<Cell>>)
    ensures Kept(a + b) == Kept(a) + Kept(b)
    ensures CountFull(a + b) == CountFull(a) + CountFull(b)
  {
    if a != [] {
      assert (a + b)[1..] == a[1..] + b;
      KeptAppend(a[1..], b);
    } else {
      assert a + b == b;
    }
  }

  /** Rows without a full one are all kept and none is counted. */
  lemma {:induction false} KeptNoFull(rows: seq<seq<Cell>>)
    requires NoFullRow(rows)
    ensures Kept(rows) == rows && CountFull(rows) == 0
  {
    if rows != [] {
      assert !IsFull(rows[0]);
      KeptNoFull(rows[1..]);
    }
  }

  /** Clearing a cleared grid changes nothing. */
  lemma CompactIdempotent(b: Grid)
    ensures Compact(Compact(b)) == Compact(b)
  {
    var c := Compact(b);
    KeptNoFull(c);
    assert Blank(0) == [];
  }

  /** The rows part-way through clearing from the bottom: `cleared` empty
      rows on top, the first `unseen` rows not yet examined, then the
      examined rows that were kept. */
  function Clearing(rows: seq<seq<Cell>>, cleared: nat, unseen: nat): (w: seq<seq<Cell>>)
    requires unseen <= |rows|
    ensures |w| == cleared + unseen + |Kept(rows[unseen..])|
  {
    Blank(cleared) + rows[..unseen] + Kept(rows[unseen..])
  }

  /** Before any row is examined, nothing is cleared. */
  lemma ClearingStarts(rows: seq<seq<Cell>>)
    ensures Clearing(rows, 0, |rows|) == rows
  {
    assert rows[|rows|..] == [] && rows[..|rows|] == rows;
    assert Kept([]) == [] && Blank(0) == [];
  }

  /** Once every row is examined, the result is the cleared grid. */
  lemma ClearingEnds(rows: seq<seq<Cell>>)
    ensures Clearing(rows, CountFull(rows), 0) == Compact(rows)
  {
    var top := Blank(CountFull(rows));
    assert top + rows[..0] == top;
    assert rows[0..] == rows;
  }

  /** The last unexamined row sits right above the kept rows; the rows above
      the unexamined ones are empty. */
  lemma ClearingRow(rows: seq<seq<Cell>>, cleared: nat, unseen: nat)
    requires 0 < unseen <= |rows|
    ensures Clearing(rows, cleared, unseen)[cleared + unseen - 1] == rows[unseen - 1]
  {
  }

  /** The rows above the unexamined ones are empty, so none of them is full. */
  lemma ClearingTop(rows: seq<seq<Cell>>, cleared: nat, unseen: nat, i: nat)
    requires unseen <= |rows| && i < cleared
    ensures Clearing(rows, cleared, unseen)[i] == EmptyRow() && !IsFull(EmptyRow())
  {
    assert EmptyRow()[0] == Empty;
  }

  /** Examining a full row cuts it out and puts an empty row on top. */
  lemma {:induction false} ClearingDropsFull(rows: seq<seq<Cell>>, cleared: nat, unseen: nat)
    requires 0 < unseen <= |rows| && IsFull(rows[unseen - 1])
    ensures var w := Clearing(rows, cleared, unseen);
      [EmptyRow()] + (w[..cleared + unseen - 1] + w[cleared + unseen..])
        == Clearing(rows, cleared + 1, unseen - 1)
    ensures CountFull(rows[unseen - 1..]) == CountFull(rows[unseen..]) + 1
  {
    var w := Clearing(rows, cleared, unseen);
    var r := cleared + unseen - 1;
    assert rows[unseen - 1..][1..] == rows[unseen..];
    assert w[..r] == Blank(cleared) + rows[..unseen - 1];
    assert w[r + 1..] == Kept(rows[unseen..]);
    assert [EmptyRow()] + Blank(cleared) == Blank(cleared + 1);
  }

  /** Examining a row that is not full keeps it where it is. */
  lemma {:induction false} ClearingKeepsRow(rows: seq<seq<Cell>>, cleared: nat, unseen: nat)
    requires 0 < unseen <= |rows| && !IsFull(rows[unseen - 1])
    ensures Clearing(rows, cleared, unseen) == Clearing(rows, cleared, unseen - 1)
    ensures CountFull(rows[unseen - 1..]) == CountFull(rows[unseen..])
  {
    assert rows[unseen - 1..][1..] == rows[unseen..];
    assert rows[..unseen] == rows[..unseen - 1] + [rows[unseen - 1]];
  }

  /** At most `|rows|` rows are full; a row-range with no full row adds none. */
  lemma {:induction false} CountFullAtMost(rows: seq<seq<Cell>>)
    ensures CountFull(rows) <= |rows|
  {
    if rows != [] {
      CountFullAtMost(rows[1..]);
    }
  }

  /** Rows whose full rows all lie in the index range [lo, hi) have at most
      hi - lo full rows. */
  lemma FullRowsWithin(rows: seq<seq<Cell>>, lo: nat, hi: nat)
    requires lo <= hi <= |rows|
    requires forall y :: 0 <= y < |rows| && IsFull(rows[y]) ==> lo <= y < hi
    ensures CountFull(rows) <= hi - lo
  {
    assert rows == rows[..lo] + rows[lo..hi] + rows[hi..];
    KeptAppend(rows[..lo] + rows[lo..hi], rows[hi..]);
    KeptAppend(rows[..lo], rows[lo..hi]);
    assert NoFullRow(rows[..lo]) by {
      forall y | 0 <= y < lo ensures !IsFull(rows[..lo][y]) {
        assert rows[..lo][y] == rows[y];
      }
    }
    assert NoFullRow(rows[hi..]) by {
      forall y | 0 <= y < |rows| - hi ensures !IsFull(rows[hi..][y]) {
        assert rows[hi..][y] == rows[hi + y];
      }
    }
    KeptNoFull(rows[..lo]);
    KeptNoFull(rows[hi..]);
    CountFullAtMost(rows[lo..hi]);
  }

  /** Merging leaves every row outside the piece's frame as it was. */
  lemma MergeKeepsOtherRows(b: Grid, p: Piece, y: int)
    requires IsGrid(b) && 0 <= y < ROWS && !(p.y <= y < p.y + |p.shape|)
    ensures Merge(b, p)[y] == b[y]
  {
    var m := Merge(b, p);
    forall x | 0 <= x < COLS
      ensures m[y][x] == b[y][x]
    {
      assert !Covers(p, x, y);
    }
  }

  /** When the grid has no full row, locking a piece whose frame spans
      `|p.shape|` rows completes at most that many rows. */
  lemma MergeCompletesAtMostShapeRows(b: Grid, p: Piece)
    requires IsGrid(b) && NoFullRow(b)
    ensures CountFull(Merge(b, p)) <= |p.shape|
  {
    var m := Merge(b, p);
    var lo: nat := if p.y < 0 then 0 else if p.y > ROWS then ROWS else p.y;
    var hi: nat := if p.y + |p.shape| < lo then lo else if p.y + |p.shape| > ROWS then ROWS else p.y + |p.shape|;
    forall y | 0 <= y < ROWS && IsFull(m[y])
      ensures lo <= y < hi
    {
      if !(p.y <= y < p.y + |p.shape|) {
        MergeKeepsOtherRows(b, p, y);
      }
    }
    FullRowsWithin(m, lo, hi);
  }
}
