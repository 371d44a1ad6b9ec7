/** The rule of Conway's Game of Life on the unbounded plane: the reference
    the engines are measured against.

    A cell with exactly 3 live neighbours is born; a live cell with 2 or 3
    live neighbours survives; every other cell is dead in the next
    generation. */
module Life {
  import opened Counting

  /** The rule as the source writes it: alive next if the cell is alive and
      has 2 live neighbours, or if it has 3. */
  function Rule(alive: bool, k: nat): bool
  {
    (alive && k == 2) || k == 3
  }

  function B(b: bool): nat
  {
    if b then 1 else 0
  }

  /** Number of true values among eight. */
  function Sum8(a: bool, b: bool, c: bool, d: bool, e: bool, f: bool, g: bool, h: bool): nat
  {
    B(a) + B(b) + B(c) + B(d) + B(e) + B(f) + B(g) + B(h)
  }

  /** Number of live cells among the eight cells around (x, y), row by row
      from the north-west. */
  function Neighbours(p: Plane, x: int, y: int): nat
  {
    Sum8(p(x - 1, y + 1), p(x, y + 1), p(x + 1, y + 1),
         p(x - 1, y), p(x + 1, y),
         p(x - 1, y - 1), p(x, y - 1), p(x + 1, y - 1))
  }

  /** State of cell (x, y) one generation after p. */
  function Next(p: Plane, x: int, y: int): bool
  {
    Rule(p(x, y), Neighbours(p, x, y))
  }

  /** One generation of the whole plane. */
  function Step(p: Plane): Plane
  {
    (x, y) => Next(p, x, y)
  }

  /** t generations of the whole plane. */
  function Iter(p: Plane, t: nat): Plane
  {
    if t == 0 then p else Step(Iter(p, t - 1))
  }

  /** The neighbour count is the live count of the 3x3 box around the cell,
      less the cell itself; so it is at most 8. */
  lemma NeighboursIsBoxCount(p: Plane, x: int, y: int)
    ensures Neighbours(p, x, y) == Count(p, x - 1, x + 2, y - 1, y + 2) - B(p(x, y))
    ensures Neighbours(p, x, y) <= 8
  {
    assert Count(p, x - 1, x + 2, y - 1, y) == RowCount(p, y - 1, x - 1, x + 2);
    assert Count(p, x - 1, x + 2, y - 1, y + 1) == Count(p, x - 1, x + 2, y - 1, y) + RowCount(p, y, x - 1, x + 2);
    assert Count(p, x - 1, x + 2, y - 1, y + 2) == Count(p, x - 1, x + 2, y - 1, y + 1) + RowCount(p, y + 1, x - 1, x + 2);
    forall r ensures RowCount(p, r, x - 1, x + 2) == B(p(x - 1, r)) + B(p(x, r)) + B(p(x + 1, r)) {
      assert RowCount(p, r, x - 1, x) == B(p(x - 1, r));
      assert RowCount(p, r, x - 1, x + 1) == B(p(x - 1, r)) + B(p(x, r));
    }
  }

  /** Iterating a + b generations is iterating a, then b more. */
  lemma {:induction false} IterAdd(p: Plane, a: nat, b: nat)
    ensures Iter(Iter(p, a), b) == Iter(p, a + b)
    decreases b
  {
    if b > 0 {
      IterAdd(p, a, b - 1);
    }
  }

  /** Two planes that agree on every cell. */
  ghost predicate Same(p: Plane, q: Plane)
  {
    forall x, y {:trigger AgreeAt(p, q, x, y)} :: AgreeAt(p, q, x, y)
  }

  /** Two planes agree on cell (x, y). */
  ghost predicate AgreeAt(p: Plane, q: Plane, x: int, y: int)
  {
    p(x, y) == q(x, y)
  }

  /** The Life rule at a cell depends only on the cell and its eight
      neighbours. */
  lemma NextLocal(p: Plane, q: Plane, x: int, y: int, u: int, v: int)
    requires p(x - 1, y + 1) == q(u - 1, v + 1) && p(x, y + 1) == q(u, v + 1) && p(x + 1, y + 1) == q(u + 1, v + 1)
    requires p(x - 1, y) == q(u - 1, v) && p(x, y) == q(u, v) && p(x + 1, y) == q(u + 1, v)
    requires p(x - 1, y - 1) == q(u - 1, v - 1) && p(x, y - 1) == q(u, v - 1) && p(x + 1, y - 1) == q(u + 1, v - 1)
    ensures Next(p, x, y) == Next(q, u, v)
  {
  }

  /** Planes that agree on every cell keep agreeing, generation after
      generation. */
  lemma {:induction false} IterSame(p: Plane, q: Plane, t: nat)
    requires Same(p, q)
    ensures Same(Iter(p, t), Iter(q, t))
    decreases t
  {
    if t > 0 {
      IterSame(p, q, t - 1);
      var p', q' := Iter(p, t - 1), Iter(q, t - 1);
      forall x, y ensures AgreeAt(Step(p'), Step(q'), x, y) {
        assert AgreeAt(p', q', x - 1, y + 1) && AgreeAt(p', q', x, y + 1) && AgreeAt(p', q', x + 1, y + 1);
        assert AgreeAt(p', q', x - 1, y) && AgreeAt(p', q', x, y) && AgreeAt(p', q', x + 1, y);
        assert AgreeAt(p', q', x - 1, y - 1) && AgreeAt(p', q', x, y - 1) && AgreeAt(p', q', x + 1, y - 1);
        NextLocal(p', q', x, y, x, y);
      }
    }
  }

  /** Every cell of [x0, x1) x [y0, y1) is dead. */
  ghost predicate DeadOn(p: Plane, x0: int, x1: int, y0: int, y1: int)
  {
    forall x, y :: x0 <= x < x1 && y0 <= y < y1 ==> !p(x, y)
  }

  /** A dead cell with no live neighbour stays dead. */
  lemma StepDeadOn(p: Plane, x0: int, x1: int, y0: int, y1: int)
    requires DeadOn(p, x0 - 1, x1 + 1, y0 - 1, y1 + 1)
    ensures DeadOn(Step(p), x0, x1, y0, y1)
  {
    forall x, y | x0 <= x < x1 && y0 <= y < y1 ensures !Step(p)(x, y) {
      assert Neighbours(p, x, y) == 0;
    }
  }

  /** A dead square stays dead in its middle for t generations, shrinking
      by one cell on each side per generation. */
  lemma {:induction false} IterDeadOn(p: Plane, t: nat, x0: int, x1: int, y0: int, y1: int)
    requires DeadOn(p, x0 - t, x1 + t, y0 - t, y1 + t)
    ensures DeadOn(Iter(p, t), x0, x1, y0, y1)
    decreases t
  {
    if t > 0 {
      IterDeadOn(p, t - 1, x0 - 1, x1 + 1, y0 - 1, y1 + 1);
      StepDeadOn(Iter(p, t - 1), x0, x1, y0, y1);
    }
  }

  /** Every live cell lies in [x0, x1) x [y0, y1). */
  ghost predicate DeadOutside(p: Plane, x0: int, x1: int, y0: int, y1: int)
  {
    forall x, y :: !(x0 <= x < x1 && y0 <= y < y1) ==> !p(x, y)
  }

  /** In one generation the live cells spread by at most one cell. */
  lemma StepDeadOutside(p: Plane, x0: int, x1: int, y0: int, y1: int)
    requires DeadOutside(p, x0, x1, y0, y1)
    ensures DeadOutside(Step(p), x0 - 1, x1 + 1, y0 - 1, y1 + 1)
  {
    forall x, y | !(x0 - 1 <= x < x1 + 1 && y0 - 1 <= y < y1 + 1) ensures !Step(p)(x, y) {
      assert Neighbours(p, x, y) == 0;
    }
  }

  /** In t generations the live cells spread by at most t cells. */
  lemma {:induction false} IterDeadOutside(p: Plane, t: nat, x0: int, x1: int, y0: int, y1: int)
    requires DeadOutside(p, x0, x1, y0, y1)
    ensures DeadOutside(Iter(p, t), x0 - t, x1 + t, y0 - t, y1 + t)
    decreases t
  {
    if t > 0 {
      IterDeadOutside(p, t - 1, x0, x1, y0, y1);
      StepDeadOutside(Iter(p, t - 1), x0 - (t - 1), x1 + (t - 1), y0 - (t - 1), y1 + (t - 1));
    }
  }
}
