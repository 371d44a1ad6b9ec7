/** Counting the live cells of a rectangle of the plane.

    A region of the plane is described by a function from coordinates to
    "alive"; `Count(f, x0, x1, y0, y1)` is the number of live cells in the
    half-open rectangle [x0, x1) x [y0, y1). The lemmas split a rectangle
    along either axis, move it, and characterise an empty count. */
module Counting {

  type Plane = (int, int) -> bool

  /** Number of live cells in row `y`, columns [x0, x1). */
  function RowCount(f: Plane, y: int, x0: int, x1: int): nat
    decreases x1 - x0
  {
    if x1 <= x0 then 0 else RowCount(f, y, x0, x1 - 1) + (if f(x1 - 1, y) then 1 else 0)
  }

  /** Number of live cells in [x0, x1) x [y0, y1). */
  function Count(f: Plane, x0: int, x1: int, y0: int, y1: int): nat
    decreases y1 - y0
  {
    if y1 <= y0 then 0 else Count(f, x0, x1, y0, y1 - 1) + RowCount(f, y1 - 1, x0, x1)
  }

  lemma {:induction false} RowSplit(f: Plane, y: int, x0: int, xm: int, x1: int)
    requires x0 <= xm <= x1
    ensures RowCount(f, y, x0, x1) == RowCount(f, y, x0, xm) + RowCount(f, y, xm, x1)
    decreases x1 - xm
  {
    if x1 > xm {
      RowSplit(f, y, x0, xm, x1 - 1);
    }
  }

  /** Splitting a rectangle at column xm. */
  lemma {:induction false} CountSplitX(f: Plane, x0: int, xm: int, x1: int, y0: int, y1: int)
    requires x0 <= xm <= x1
    ensures Count(f, x0, x1, y0, y1) == Count(f, x0, xm, y0, y1) + Count(f, xm, x1, y0, y1)
    decreases y1 - y0
  {
    if y1 > y0 {
      CountSplitX(f, x0, xm, x1, y0, y1 - 1);
      RowSplit(f, y1 - 1, x0, xm, x1);
    }
  }

  /** Splitting a rectangle at row ym. */
  lemma {:induction false} CountSplitY(f: Plane, x0: int, x1: int, y0: int, ym: int, y1: int)
    requires y0 <= ym <= y1
    ensures Count(f, x0, x1, y0, y1) == Count(f, x0, x1, y0, ym) + Count(f, x0, x1, ym, y1)
    decreases y1 - ym
  {
    if y1 > ym {
      CountSplitY(f, x0, x1, y0, ym, y1 - 1);
    }
  }

  lemma {:induction false} RowShift(f: Plane, g: Plane, dx: int, dy: int, y: int, x0: int, x1: int)
    requires forall x :: x0 <= x < x1 ==> f(x, y) == g(x + dx, y + dy)
    ensures RowCount(f, y, x0, x1) == RowCount(g, y + dy, x0 + dx, x1 + dx)
    decreases x1 - x0
  {
    if x1 > x0 {
      RowShift(f, g, dx, dy, y, x0, x1 - 1);
    }
  }

  /** Two planes that agree up to a translation have the same count on
      corresponding rectangles. */
  lemma {:induction false} CountShift(f: Plane, g: Plane, dx: int, dy: int, x0: int, x1: int, y0: int, y1: int)
    requires forall x, y :: x0 <= x < x1 && y0 <= y < y1 ==> f(x, y) == g(x + dx, y + dy)
    ensures Count(f, x0, x1, y0, y1) == Count(g, x0 + dx, x1 + dx, y0 + dy, y1 + dy)
    decreases y1 - y0
  {
    if y1 > y0 {
      CountShift(f, g, dx, dy, x0, x1, y0, y1 - 1);
      RowShift(f, g, dx, dy, y1 - 1, x0, x1);
    }
  }

  lemma {:induction false} RowEmpty(f: Plane, y: int, x0: int, x1: int)
    ensures RowCount(f, y, x0, x1) == 0 <==> forall x :: x0 <= x < x1 ==> !f(x, y)
    decreases x1 - x0
  {
    if x1 > x0 {
      RowEmpty(f, y, x0, x1 - 1);
    }
  }

  /** A plane whose live cells in [X0, X1) x [Y0, Y1) all lie in the inner
      rectangle [x0, x1) x [y0, y1) has the same count on both. */
  lemma CountInner(f: Plane, X0: int, x0: int, x1: int, X1: int, Y0: int, y0: int, y1: int, Y1: int)
    requires X0 <= x0 <= x1 <= X1 && Y0 <= y0 <= y1 <= Y1
    requires forall x, y :: X0 <= x < X1 && Y0 <= y < Y1 && !(x0 <= x < x1 && y0 <= y < y1) ==> !f(x, y)
    ensures Count(f, X0, X1, Y0, Y1) == Count(f, x0, x1, y0, y1)
  {
    CountSplitX(f, X0, x0, X1, Y0, Y1);
    CountEmpty(f, X0, x0, Y0, Y1);
    CountSplitX(f, x0, x1, X1, Y0, Y1);
    CountEmpty(f, x1, X1, Y0, Y1);
    CountSplitY(f, x0, x1, Y0, y0, Y1);
    CountEmpty(f, x0, x1, Y0, y0);
    CountSplitY(f, x0, x1, y0, y1, Y1);
    CountEmpty(f, x0, x1, y1, Y1);
  }

  /** The count is zero exactly when no cell of the rectangle is alive. */
  lemma {:induction false} CountEmpty(f: Plane, x0: int, x1: int, y0: int, y1: int)
    ensures Count(f, x0, x1, y0, y1) == 0 <==> forall x, y :: x0 <= x < x1 && y0 <= y < y1 ==> !f(x, y)
    decreases y1 - y0
  {
    if y1 > y0 {
      CountEmpty(f, x0, x1, y0, y1 - 1);
      RowEmpty(f, y1 - 1, x0, x1);
      if Count(f, x0, x1, y0, y1) == 0 {
        forall x, y | x0 <= x < x1 && y0 <= y < y1 ensures !f(x, y) {
          if y < y1 - 1 {
          } else {
          }
        }
      }
    }
  }
}
