/** NaiveUniverse (hashlife.py): the reference simulator on a bounded n x m
    board, where every cell off the board counts as dead.

    The board is modelled as a sequence of rows that the methods reassign;
    `BoardPlane(n, m, b)` is the board seen as a plane of the Life module, dead
    off the board, so a round of the board is one Life step restricted to
    the board. */
module Naive {
  import opened Counting
  import opened Life
  import opened Wrappers

  /** n rows of m cells each. */
  predicate IsBoard(n: nat, m: nat, b: seq<seq<bool>>)
  {
    |b| == n && forall i :: 0 <= i < n ==> |b[i]| == m
  }

  /** The board as a plane: cell (i, j) of the board, dead off the board. */
  function BoardPlane(n: nat, m: nat, b: seq<seq<bool>>): Plane
  {
    (x: int, y: int) => 0 <= x < n && 0 <= y < m && x < |b| && y < |b[x]| && b[x][y]
  }

  /** Number of live cells of column x, rows [y0, y1).

      Counting.Count adds a plane up row by row; alive_neighbors runs its
      outer loop over the first index, so the board gets its own count in
      that order. AliveNeighbors ties the result to Life.Neighbours, which
      the HashLife side uses as well. */
  function ColumnCount(p: Plane, x: int, y0: int, y1: int): nat
    decreases y1 - y0
  {
    if y1 <= y0 then 0 else ColumnCount(p, x, y0, y1 - 1) + B(p(x, y1 - 1))
  }

  /** Number of live cells of [x0, x1) x [y0, y1), column by column: the
      order in which alive_neighbors visits the cells. */
  function BoxCount(p: Plane, x0: int, x1: int, y0: int, y1: int): nat
    decreases x1 - x0
  {
    if x1 <= x0 then 0 else BoxCount(p, x0, x1 - 1, y0, y1) + ColumnCount(p, x1 - 1, y0, y1)
  }

  /** Live cells of column x of board b, rows [y0, y1). */
  function BoardColumn(b: seq<seq<bool>>, x: nat, y0: nat, y1: nat): nat
    requires x < |b| && y0 <= y1 <= |b[x]|
    decreases y1 - y0
  {
    if y1 == y0 then 0 else BoardColumn(b, x, y0, y1 - 1) + B(b[x][y1 - 1])
  }

  /** Live cells of board b in [x0, x1) x [y0, y1). */
  function BoardBox(b: seq<seq<bool>>, x0: nat, x1: nat, y0: nat, y1: nat): nat
    requires x0 <= x1 <= |b| && y0 <= y1 && forall x :: x0 <= x < x1 ==> y1 <= |b[x]|
    decreases x1 - x0
  {
    if x1 == x0 then 0 else BoardBox(b, x0, x1 - 1, y0, y1) + BoardColumn(b, x1 - 1, y0, y1)
  }

  /** The double loop of alive_neighbors: the live cells of the box
      [x0, x1) x [y0, y1) of the board, visited column by column. */
  method CountBox(b: seq<seq<bool>>, m: nat, x0: nat, x1: nat, y0: nat, y1: nat) returns (res: nat)
    requires x0 <= x1 <= |b| && y0 <= y1 <= m && forall x :: 0 <= x < |b| ==> |b[x]| == m
    ensures res == BoardBox(b, x0, x1, y0, y1)
  {
    res := 0;
    for k := x0 to x1
      invariant res == BoardBox(b, x0, k, y0, y1)
    {
      assert |b[k]| == m;
      ghost var box := res;
      for l := y0 to y1
        invariant res == box + BoardColumn(b, k, y0, l)
      {
        if b[k][l] {
          res := res + 1;
        }
      }
    }
  }

  lemma {:induction false} BoardColumnIsColumnCount(n: nat, m: nat, b: seq<seq<bool>>, x: nat, y0: nat, y1: nat)
    requires IsBoard(n, m, b) && x < n && y0 <= y1 <= m
    ensures BoardColumn(b, x, y0, y1) == ColumnCount(BoardPlane(n, m, b), x, y0, y1)
    decreases y1 - y0
  {
    if y1 > y0 {
      BoardColumnIsColumnCount(n, m, b, x, y0, y1 - 1);
    }
  }

  lemma {:induction false} BoardBoxIsBoxCount(n: nat, m: nat, b: seq<seq<bool>>, x0: nat, x1: nat, y0: nat, y1: nat)
    requires IsBoard(n, m, b) && x0 <= x1 <= n && y0 <= y1 <= m
    ensures BoardBox(b, x0, x1, y0, y1) == BoxCount(BoardPlane(n, m, b), x0, x1, y0, y1)
    decreases x1 - x0
  {
    if x1 > x0 {
      BoardBoxIsBoxCount(n, m, b, x0, x1 - 1, y0, y1);
      BoardColumnIsColumnCount(n, m, b, x1 - 1, y0, y1);
    }
  }

  /** A column of the 3x3 box around row y, clamped to the board: the rows
      dropped by the clamp are dead, so the count is the full column's. */
  lemma ColumnClamp(p: Plane, x: int, y: int, y0: int, y1: int)
    requires y0 == y - 1 || (y0 == y && !p(x, y - 1))
    requires y1 == y + 2 || (y1 == y + 1 && !p(x, y + 1))
    ensures ColumnCount(p, x, y0, y1) == B(p(x, y - 1)) + B(p(x, y)) + B(p(x, y + 1))
  {
    assert ColumnCount(p, x, y0, y0) == 0;
    if y0 == y - 1 {
      assert ColumnCount(p, x, y0, y) == B(p(x, y - 1));
    }
    assert ColumnCount(p, x, y0, y + 1) == B(p(x, y - 1)) + B(p(x, y));
  }

  /** The 3x3 box around (x, y), clamped to the board, holds the cell and
      its eight neighbours. */
  lemma BoxClamp(p: Plane, x: int, y: int, x0: int, x1: int, y0: int, y1: int)
    requires x0 == x - 1 || (x0 == x && !p(x - 1, y - 1) && !p(x - 1, y) && !p(x - 1, y + 1))
    requires x1 == x + 2 || (x1 == x + 1 && !p(x + 1, y - 1) && !p(x + 1, y) && !p(x + 1, y + 1))
    requires y0 == y - 1 || (y0 == y && !p(x - 1, y - 1) && !p(x, y - 1) && !p(x + 1, y - 1))
    requires y1 == y + 2 || (y1 == y + 1 && !p(x - 1, y + 1) && !p(x, y + 1) && !p(x + 1, y + 1))
    ensures BoxCount(p, x0, x1, y0, y1) == Neighbours(p, x, y) + B(p(x, y))
  {
    ColumnClamp(p, x - 1, y, y0, y1);
    ColumnClamp(p, x, y, y0, y1);
    ColumnClamp(p, x + 1, y, y0, y1);
    assert BoxCount(p, x0, x0, y0, y1) == 0;
    if x0 == x - 1 {
      assert BoxCount(p, x0, x, y0, y1) == ColumnCount(p, x - 1, y0, y1);
    }
    assert BoxCount(p, x0, x + 1, y0, y1) == BoxCount(p, x0, x, y0, y1) + ColumnCount(p, x, y0, y1);
  }

  /** The 3x3 box around board cell (i, j), clamped to the board as
      alive_neighbors clamps it, counts the cell and its eight neighbours. */
  lemma ClampedBox(n: nat, m: nat, b: seq<seq<bool>>, i: nat, j: nat, minI: nat, maxI: nat, minJ: nat, maxJ: nat)
    requires IsBoard(n, m, b) && i < n && j < m
    requires minI == (if 0 < i - 1 then i - 1 else 0) && maxI == (if n - 1 < i + 1 then n - 1 else i + 1)
    requires minJ == (if 0 < j - 1 then j - 1 else 0) && maxJ == (if m - 1 < j + 1 then m - 1 else j + 1)
    ensures BoardBox(b, minI, maxI + 1, minJ, maxJ + 1) == Neighbours(BoardPlane(n, m, b), i, j) + B(b[i][j])
  {
    var p := BoardPlane(n, m, b);
    BoardBoxIsBoxCount(n, m, b, minI, maxI + 1, minJ, maxJ + 1);
    BoxClamp(p, i, j, minI, maxI + 1, minJ, maxJ + 1);
    NeighboursIsBoxCount(p, i, j);
  }

  /** One round of the board: each cell by the Life rule on its live
      neighbours on the board. */
  function NextBoard(n: nat, m: nat, b: seq<seq<bool>>): (r: seq<seq<bool>>)
    requires IsBoard(n, m, b)
    ensures IsBoard(n, m, r)
  {
    seq(n, i requires 0 <= i < n => seq(m, j requires 0 <= j < m => Next(BoardPlane(n, m, b), i, j)))
  }

  /** t rounds of the board. */
  function IterBoard(n: nat, m: nat, b: seq<seq<bool>>, t: nat): (r: seq<seq<bool>>)
    requires IsBoard(n, m, b)
    ensures IsBoard(n, m, r)
  {
    if t == 0 then b else NextBoard(n, m, IterBoard(n, m, b, t - 1))
  }

  /** A round of the board is one Life step of its plane, cut back to the
      board: cells off the board stay dead. */
  lemma NextBoardIsStep(n: nat, m: nat, b: seq<seq<bool>>, x: int, y: int)
    requires IsBoard(n, m, b)
    ensures BoardPlane(n, m, NextBoard(n, m, b))(x, y) == (0 <= x < n && 0 <= y < m && Step(BoardPlane(n, m, b))(x, y))
  {
  }

  /** A board whose every cell follows the Life rule on the cell of b and
      its count in the table l of b's neighbour counts is b's next round. */
  lemma CountsGiveNextBoard(n: nat, m: nat, b: seq<seq<bool>>, l: seq<seq<int>>, nb: seq<seq<bool>>)
    requires IsBoard(n, m, b) && |l| == n && |nb| == n
    requires forall r :: 0 <= r < n ==> |l[r]| == m && |nb[r]| == m
    requires forall r, c :: 0 <= r < n && 0 <= c < m ==> l[r][c] == Neighbours(BoardPlane(n, m, b), r, c)
    requires forall r, c :: 0 <= r < n && 0 <= c < m ==> nb[r][c] == ((b[r][c] && l[r][c] == 2) || l[r][c] == 3)
    ensures nb == NextBoard(n, m, b)
  {
    var next := NextBoard(n, m, b);
    forall r | 0 <= r < n
      ensures nb[r] == next[r]
    {
      forall c | 0 <= c < m
        ensures nb[r][c] == next[r][c]
      {
        assert next[r][c] == Next(BoardPlane(n, m, b), r, c);
      }
    }
  }

  /** Python's index for a list of length n: a negative index counts from
      the end; anything else out of range has no element. */
  function PyIndex(i: int, n: nat): (r: Option<nat>)
    ensures r.Some? <==> -(n as int) <= i < n
    ensures r.Some? ==> r.value < n && (r.value == i || r.value == i + n)
  {
    if 0 <= i < n then Some(i) else if -(n as int) <= i < 0 then Some(i + n) else None
  }

  class NaiveUniverse {
    var xSize: nat
    var ySize: nat
    var board: seq<seq<bool>>

    ghost predicate Valid()
      reads this
    {
      IsBoard(xSize, ySize, board)
    }

    /** NaiveUniverse(n, m, cells). */
    constructor(n: nat, m: nat, cells: seq<seq<bool>>)
      requires IsBoard(n, m, cells)
      ensures Valid() && xSize == n && ySize == m && board == cells
    {
      xSize := n;
      ySize := m;
      board := cells;
    }

    /** alive_neighbors(i, j): the live cells of the 3x3 box around (i, j)
        that lie on the board, less the cell itself. */
    method AliveNeighbors(i: nat, j: nat) returns (res: int)
      requires Valid() && i < xSize && j < ySize
      ensures res == Neighbours(BoardPlane(xSize, ySize, board), i, j)
      ensures 0 <= res <= 8
    {
      var n, m, b := xSize, ySize, board;
      var minI := if 0 < i - 1 then i - 1 else 0;
      var maxI := if n - 1 < i + 1 then n - 1 else i + 1;
      var minJ := if 0 < j - 1 then j - 1 else 0;
      var maxJ := if m - 1 < j + 1 then m - 1 else j + 1;
      assert 0 <= minI <= i <= maxI < n && 0 <= minJ <= j <= maxJ < m;
      res := CountBox(b, m, minI, maxI + 1, minJ, maxJ + 1);
      if b[i][j] {
        res := res - 1;
      }
      ClampedBox(n, m, b, i, j, minI, maxI, minJ, maxJ);
    }

    /** round()'s first pass: the table of every cell's live neighbours,
        before any cell changes. */
    method NeighbourCounts() returns (l: seq<seq<int>>)
      requires Valid()
      ensures |l| == xSize && forall r :: 0 <= r < xSize ==> |l[r]| == ySize
      ensures forall r, c :: 0 <= r < xSize && 0 <= c < ySize ==> l[r][c] == Neighbours(BoardPlane(xSize, ySize, board), r, c)
    {
      l := [];
      for i := 0 to xSize
        invariant |l| == i
        invariant forall r :: 0 <= r < i ==> |l[r]| == ySize
        invariant forall r, c :: 0 <= r < i && 0 <= c < ySize ==> l[r][c] == Neighbours(BoardPlane(xSize, ySize, board), r, c)
      {
        var row: seq<int> := [];
        for j := 0 to ySize
          invariant |row| == j
          invariant forall c :: 0 <= c < j ==> row[c] == Neighbours(BoardPlane(xSize, ySize, board), i, c)
        {
          var k := AliveNeighbors(i, j);
          row := row + [k];
        }
        l := l + [row];
      }
    }

    /** round(): count every cell's neighbours first, then update the board
        cell by cell, a dead cell with 3 becoming alive and a live cell
        without 2 or 3 dying. */
    method Round()
      requires Valid()
      modifies this
      ensures Valid() && xSize == old(xSize) && ySize == old(ySize)
      ensures board == NextBoard(xSize, ySize, old(board))
    {
      var l := NeighbourCounts();
      ghost var n, m, b0 := xSize, ySize, board;
      for i := 0 to xSize
        invariant xSize == n && ySize == m && |board| == n
        invariant forall r :: 0 <= r < i ==> |board[r]| == m
        invariant forall r, c :: 0 <= r < i && 0 <= c < m ==> board[r][c] == ((b0[r][c] && l[r][c] == 2) || l[r][c] == 3)
        invariant forall r :: i <= r < n ==> board[r] == b0[r]
      {
        var row := board[i];
        for j := 0 to ySize
          invariant |row| == m
          invariant forall c :: 0 <= c < j ==> row[c] == ((b0[i][c] && l[i][c] == 2) || l[i][c] == 3)
          invariant forall c :: j <= c < m ==> row[c] == b0[i][c]
        {
          if !row[j] && l[i][j] == 3 {
            row := row[j := true];
          }
          if row[j] && l[i][j] != 3 && l[i][j] != 2 {
            row := row[j := false];
          }
        }
        board := board[i := row];
      }
      CountsGiveNextBoard(n, m, b0, l, board);
    }

    /** rounds(n), inherited from Universe: n rounds in a row. */
    method Rounds(t: nat)
      requires Valid()
      modifies this
      ensures Valid() && xSize == old(xSize) && ySize == old(ySize)
      ensures board == IterBoard(xSize, ySize, old(board), t)
    {
      for s := 0 to t
        invariant Valid() && xSize == old(xSize) && ySize == old(ySize)
        invariant board == IterBoard(xSize, ySize, old(board), s)
      {
        Round();
      }
    }

    /** get(i, j): board[i][j] with Python's indexing; None where the
        source raises IndexError. */
    method Get(i: int, j: int) returns (r: Option<bool>)
      requires Valid()
      ensures -(xSize as int) <= i < xSize && -(ySize as int) <= j < ySize <==> r.Some?
      ensures 0 <= i < xSize && 0 <= j < ySize ==> r == Some(BoardPlane(xSize, ySize, board)(i, j))
      ensures r.Some? ==> r == Some(board[PyIndex(i, xSize).value][PyIndex(j, ySize).value])
    {
      var pi := PyIndex(i, xSize);
      if pi.None? {
        return None;
      }
      var pj := PyIndex(j, |board[pi.value]|);
      if pj.None? {
        return None;
      }
      r := Some(board[pi.value][pj.value]);
    }
  }
}
