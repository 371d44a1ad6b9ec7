/** Quadtree nodes of the HashLife engine (hashlife.py, classes AbstractNode,
    CellNode and Node).

    A node is a value: structural equality of the datatype stands for the
    hash-consing registry of the source, which makes nodes with equal
    content one and the same object. A level-0 node is a cell; a level-k
    node has four children of level k-1 and covers a square of side 2^k.

    Coordinates inside a node: x grows eastwards, y northwards, (0, 0) is
    the south-west cell; the nw child covers x < h, y >= h (h = half side). */
module Quadtree {
  import opened Counting

  datatype Node = Cell(alive: bool) | Inner(nw: Node, ne: Node, sw: Node, se: Node)
  {
    /** Level of the node: 0 for a cell, one more than the nw child otherwise. */
    function Level(): nat
    {
      match this
      case Cell(_) => 0
      case Inner(nw, _, _, _) => 1 + nw.Level()
    }

    /** Number of live cells: the sum of the children's populations. */
    function Population(): nat
    {
      match this
      case Cell(a) => if a then 1 else 0
      case Inner(nw, ne, sw, se) => nw.Population() + ne.Population() + sw.Population() + se.Population()
    }

    /** The four children of every interior node have one and the same level. */
    predicate Valid()
    {
      match this
      case Cell(_) => true
      case Inner(nw, ne, sw, se) =>
        nw.Valid() && ne.Valid() && sw.Valid() && se.Valid() &&
        ne.Level() == nw.Level() && sw.Level() == nw.Level() && se.Level() == nw.Level()
    }

    /** Side of the square the node covers. */
    function Side(): nat
    {
      Pow2(Level())
    }

    /** State of the cell at (x, y); every cell outside the square is dead. */
    function At(x: int, y: int): bool
    {
      match this
      case Cell(a) => a && x == 0 && y == 0
      case Inner(nw, ne, sw, se) =>
        var h := Pow2(nw.Level());
        if x < 0 || y < 0 || 2 * h <= x || 2 * h <= y then false
        else if h <= y then (if x < h then nw.At(x, y - h) else ne.At(x - h, y - h))
        else (if x < h then sw.At(x, y) else se.At(x - h, y))
    }

    /** AbstractNode.extend: a node one level higher whose centre is this node.
        A cell is placed as the ne child of a level-1 node. */
    function Extend(): (r: Node)
      requires Valid()
      ensures r.Valid() && r.Level() == Level() + 1 && r.Population() == Population()
    {
      if Level() == 0 then
        Inner(Cell(false), this, Cell(false), Cell(false))
      else
        var z := Zero(nw.Level());
        Inner(Inner(z, z, z, nw), Inner(z, z, ne, z), Inner(z, sw, z, z), Inner(se, z, z, z))
    }
  }

  /** 2^k. */
  function Pow2(k: nat): (p: nat)
    ensures p >= 1
  {
    if k == 0 then 1 else 2 * Pow2(k - 1)
  }

  /** The all-dead node of level k (AbstractNode.zero). */
  function Zero(k: nat): (z: Node)
    ensures z.Valid() && z.Level() == k && z.Population() == 0
  {
    if k == 0 then Cell(false) else Inner(Zero(k - 1), Zero(k - 1), Zero(k - 1), Zero(k - 1))
  }

  /** The twelve grandchildren on the border of a node of level >= 2 are all
      the all-dead node. */
  predicate OuterRingIsZero(r: Node)
    requires r.Valid() && r.Level() >= 2
  {
    var z := Zero(r.Level() - 2);
    r.nw.nw == z && r.nw.ne == z && r.ne.nw == z && r.ne.ne == z &&
    r.ne.se == z && r.se.ne == z && r.se.se == z && r.se.sw == z &&
    r.sw.se == z && r.sw.sw == z && r.sw.nw == z && r.nw.sw == z
  }

  /** AbstractNode.zero as the source writes it: start from the dead cell and
      pair it with itself k times. */
  method BuildZero(k: nat) returns (a: Node)
    ensures a == Zero(k)
  {
    if k == 0 {
      return Cell(false);
    }
    a := Cell(false);
    var i := 0;
    while i < k
      invariant 0 <= i <= k
      invariant a == Zero(i)
    {
      assert Zero(i + 1) == Inner(Zero(i), Zero(i), Zero(i), Zero(i));
      a := Inner(a, a, a, a);
      i := i + 1;
    }
    assert i == k;
  }

  /** The whole plane view of a node, for counting. */
  function Cells(n: Node): Plane
  {
    (x, y) => n.At(x, y)
  }

  lemma {:induction false} SideOfInner(n: Node)
    requires n.Valid() && n.Inner?
    ensures n.Side() == 2 * Pow2(n.nw.Level())
    ensures n.nw.Side() == n.ne.Side() == n.sw.Side() == n.se.Side() == Pow2(n.nw.Level())
  {
  }

  /** Every cell of a node outside its square is dead. */
  lemma {:induction false} AtOutside(n: Node, x: int, y: int)
    requires n.Valid()
    requires x < 0 || y < 0 || n.Side() <= x || n.Side() <= y
    ensures !n.At(x, y)
  {
  }

  /** The all-dead node has no live cell. */
  lemma {:induction false} ZeroIsDead(k: nat, x: int, y: int)
    ensures !Zero(k).At(x, y)
  {
    if k > 0 {
      var z := Zero(k - 1);
      var h := Pow2(k - 1);
      assert Zero(k) == Inner(z, z, z, z);
      assert Zero(k).nw == z && z.Level() == k - 1;
      AtInner(Zero(k), x, y);
      if x < 0 || y < 0 || 2 * h <= x || 2 * h <= y {
      } else if h <= y {
        if x < h { ZeroIsDead(k - 1, x, y - h); } else { ZeroIsDead(k - 1, x - h, y - h); }
      } else {
        if x < h { ZeroIsDead(k - 1, x, y); } else { ZeroIsDead(k - 1, x - h, y); }
      }
    }
  }

  /** Each quadrant of an interior node is one of its children. */
  lemma {:induction false} QuadrantAt(n: Node, c: Node, h: int, dx: int, dy: int)
    requires n.Valid() && n.Inner? && h == Pow2(n.nw.Level())
    requires (c, dx, dy) in {(n.sw, 0, 0), (n.se, h, 0), (n.nw, 0, h), (n.ne, h, h)}
    ensures forall x, y :: 0 <= x < h && 0 <= y < h ==> n.At(x + dx, y + dy) == c.At(x, y)
  {
    forall x, y | 0 <= x < h && 0 <= y < h ensures n.At(x + dx, y + dy) == c.At(x, y) {
      AtInner(n, x + dx, y + dy);
    }
  }

  /** The live cells of the square of n, at (dx, dy) and of side h, that
      holds the node c. */
  lemma {:induction false} QuadrantCount(n: Node, c: Node, h: int, dx: int, dy: int, ex: int, ey: int)
    requires c.Valid() && c.Side() == h && ex == dx + h && ey == dy + h
    requires c.Population() == Count(Cells(c), 0, h, 0, h)
    requires forall x, y :: 0 <= x < h && 0 <= y < h ==> n.At(x + dx, y + dy) == c.At(x, y)
    ensures Count(Cells(n), dx, ex, dy, ey) == c.Population()
  {
    forall x, y | 0 <= x < h && 0 <= y < h ensures Cells(c)(x, y) == Cells(n)(x + dx, y + dy) {
    }
    CountShift(Cells(c), Cells(n), dx, dy, 0, h, 0, h);
    assert 0 + dx == dx && h + dx == ex && 0 + dy == dy && h + dy == ey;
  }

  /** The live cells of one quadrant of n, counted in n's square. */
  lemma QuadrantPopulation(n: Node, c: Node, h: int, dx: int, dy: int, ex: int, ey: int)
    requires n.Valid() && n.Inner? && h == Pow2(n.nw.Level())
    requires (c, dx, dy) in {(n.sw, 0, 0), (n.se, h, 0), (n.nw, 0, h), (n.ne, h, h)}
    requires ex == dx + h && ey == dy + h
    requires c.Population() == Count(Cells(c), 0, c.Side(), 0, c.Side())
    ensures Count(Cells(n), dx, ex, dy, ey) == c.Population()
  {
    SideOfInner(n);
    QuadrantAt(n, c, h, dx, dy);
    QuadrantCount(n, c, h, dx, dy, ex, ey);
  }

  /** Node's population is the number of live cells in its square. */
  lemma {:induction false} PopulationIsLiveCount(n: Node)
    requires n.Valid()
    ensures n.Population() == Count(Cells(n), 0, n.Side(), 0, n.Side())
  {
    if n.Cell? {
      assert Count(Cells(n), 0, 1, 0, 1) == RowCount(Cells(n), 0, 0, 1);
    } else {
      var h: int := Pow2(n.nw.Level());
      var s: int := 2 * h;
      var f := Cells(n);
      SideOfInner(n);
      assert n.Side() == s;
      PopulationIsLiveCount(n.nw);
      PopulationIsLiveCount(n.ne);
      PopulationIsLiveCount(n.sw);
      PopulationIsLiveCount(n.se);
      CountSplitY(f, 0, s, 0, h, s);
      CountSplitX(f, 0, h, s, 0, h);
      CountSplitX(f, 0, h, s, h, s);
      QuadrantPopulation(n, n.sw, h, 0, 0, h, h);
      QuadrantPopulation(n, n.se, h, h, 0, s, h);
      QuadrantPopulation(n, n.nw, h, 0, h, h, s);
      QuadrantPopulation(n, n.ne, h, h, h, s, s);
    }
  }

  /** A node holds at most one live cell per cell of its square. */
  lemma {:induction false} PopulationBound(n: Node)
    requires n.Valid()
    ensures n.Population() <= n.Side() * n.Side()
  {
    if n.Inner? {
      var c: int := Pow2(n.nw.Level());
      SideOfInner(n);
      PopulationBound(n.nw);
      PopulationBound(n.ne);
      PopulationBound(n.sw);
      PopulationBound(n.se);
      assert n.Side() * n.Side() == 4 * (c * c);
    }
  }

  /** A node has population zero exactly when none of its cells is alive. */
  lemma PopulationZeroIffDead(n: Node)
    requires n.Valid()
    ensures n.Population() == 0 ==> forall x, y :: !n.At(x, y)
    ensures n.Population() != 0 ==> exists x, y :: n.At(x, y)
  {
    PopulationIsLiveCount(n);
    CountEmpty(Cells(n), 0, n.Side(), 0, n.Side());
    if n.Population() == 0 {
      forall x, y ensures !n.At(x, y) {
        if !(0 <= x < n.Side() && 0 <= y < n.Side()) {
          AtOutside(n, x, y);
        } else {
          assert !Cells(n)(x, y);
        }
      }
    } else {
      var f, s := Cells(n), n.Side();
      var x, y :| 0 <= x < s && 0 <= y < s && f(x, y);
      assert n.At(x, y);
    }
  }

  /** The cell (x, y) of an interior node, read from the child that holds it. */
  lemma {:induction false} AtInner(n: Node, x: int, y: int)
    requires n.Valid() && n.Inner?
    ensures var h := Pow2(n.nw.Level());
      n.At(x, y) ==
        if x < 0 || y < 0 || 2 * h <= x || 2 * h <= y then false
        else if h <= y then (if x < h then n.nw.At(x, y - h) else n.ne.At(x - h, y - h))
        else (if x < h then n.sw.At(x, y) else n.se.At(x - h, y))
  {
  }

  // The cell (x, y) of an interior node inside each quadrant, read from the
  // child there; h is the half side.

  lemma AtNW(n: Node, h: int, x: int, y: int)
    requires n.Inner? && h == Pow2(n.nw.Level()) && 0 <= x < h <= y < 2 * h
    ensures n.At(x, y) == n.nw.At(x, y - h)
  {
  }

  lemma AtNE(n: Node, h: int, x: int, y: int)
    requires n.Inner? && h == Pow2(n.nw.Level()) && h <= x < 2 * h && h <= y < 2 * h
    ensures n.At(x, y) == n.ne.At(x - h, y - h)
  {
  }

  lemma AtSW(n: Node, h: int, x: int, y: int)
    requires n.Inner? && h == Pow2(n.nw.Level()) && 0 <= x < h && 0 <= y < h
    ensures n.At(x, y) == n.sw.At(x, y)
  {
  }

  lemma AtSE(n: Node, h: int, x: int, y: int)
    requires n.Inner? && h == Pow2(n.nw.Level()) && h <= x < 2 * h && 0 <= y < h
    ensures n.At(x, y) == n.se.At(x - h, y)
  {
  }

  /** Extend keeps the old children at the inner corners of the new
      children and fills the outer ring of grandchildren with the dead node;
      a cell is placed as the ne child. */
  lemma ExtendPlacement(n: Node)
    requires n.Valid()
    ensures n.Level() == 0 ==> n.Extend() == Inner(Cell(false), n, Cell(false), Cell(false))
    ensures n.Level() >= 1 ==>
              var r := n.Extend();
              r.Inner? && r.nw.Inner? && r.ne.Inner? && r.sw.Inner? && r.se.Inner? &&
              r.nw.se == n.nw && r.ne.sw == n.ne && r.sw.ne == n.sw && r.se.nw == n.se
    ensures n.Level() >= 1 ==> OuterRingIsZero(n.Extend())
  {
    if n.Level() >= 1 {
      ExtendShape(n);
      assert n.Extend().Level() - 2 == n.Level() - 1;
    }
  }

  /** The node Extend builds for a node of level >= 1. */
  lemma {:induction false} ExtendShape(n: Node)
    requires n.Valid() && n.Level() >= 1
    ensures var z := Zero(n.Level() - 1);
      n.Extend() == Inner(Inner(z, z, z, n.nw), Inner(z, z, n.ne, z), Inner(z, n.sw, z, z), Inner(n.se, z, z, z))
  {
  }

  // The four quadrants of an extended node: each holds one child of the
  // original node at its inner corner and dead cells elsewhere.

  lemma {:induction false} CentreNW(n: Node, z: Node, q: int, x: int, y: int)
    requires n.Valid() && n.Level() >= 1 && z.Valid() && z.Level() == n.Level() - 1 && q == Pow2(n.Level() - 1)
    requires forall x, y :: !z.At(x, y)
    requires 0 <= x < 2 * q && 2 * q <= y < 4 * q
    ensures Inner(z, z, z, n.nw).At(x, y - 2 * q) == n.At(x - q, y - q)
  {
    var m := Inner(z, z, z, n.nw);
    var u, v, X, Y := x, y - 2 * q, x - q, y - q;
    assert n.nw.Level() == n.Level() - 1 && n.Side() == 2 * q;
    if q <= u && v < q {
      AtSE(m, q, u, v);
      AtNW(n, q, X, Y);
      assert X == u - q && Y - q == v;
    } else {
      if u < q && q <= v {
        AtNW(m, q, u, v);
      } else if q <= u && q <= v {
        AtNE(m, q, u, v);
      } else if u < q {
        AtSW(m, q, u, v);
      } else {
        AtSE(m, q, u, v);
      }
      AtOutside(n, X, Y);
    }
  }

  lemma {:induction false} CentreNE(n: Node, z: Node, q: int, x: int, y: int)
    requires n.Valid() && n.Level() >= 1 && z.Valid() && z.Level() == n.Level() - 1 && q == Pow2(n.Level() - 1)
    requires forall x, y :: !z.At(x, y)
    requires 2 * q <= x < 4 * q && 2 * q <= y < 4 * q
    ensures Inner(z, z, n.ne, z).At(x - 2 * q, y - 2 * q) == n.At(x - q, y - q)
  {
    var m := Inner(z, z, n.ne, z);
    var u, v, X, Y := x - 2 * q, y - 2 * q, x - q, y - q;
    assert n.nw.Level() == n.Level() - 1 && n.Side() == 2 * q;
    if u < q && v < q {
      AtSW(m, q, u, v);
      AtNE(n, q, X, Y);
      assert X - q == u && Y - q == v;
    } else {
      if u < q && q <= v {
        AtNW(m, q, u, v);
      } else if q <= u && q <= v {
        AtNE(m, q, u, v);
      } else if u < q {
        AtSW(m, q, u, v);
      } else {
        AtSE(m, q, u, v);
      }
      AtOutside(n, X, Y);
    }
  }

  lemma {:induction false} CentreSW(n: Node, z: Node, q: int, x: int, y: int)
    requires n.Valid() && n.Level() >= 1 && z.Valid() && z.Level() == n.Level() - 1 && q == Pow2(n.Level() - 1)
    requires forall x, y :: !z.At(x, y)
    requires 0 <= x < 2 * q && 0 <= y < 2 * q
    ensures Inner(z, n.sw, z, z).At(x, y) == n.At(x - q, y - q)
  {
    var m := Inner(z, n.sw, z, z);
    var u, v, X, Y := x, y, x - q, y - q;
    assert n.nw.Level() == n.Level() - 1 && n.Side() == 2 * q;
    if q <= u && q <= v {
      AtNE(m, q, u, v);
      AtSW(n, q, X, Y);
      assert X == u - q && Y == v - q;
    } else {
      if u < q && q <= v {
        AtNW(m, q, u, v);
      } else if q <= u && q <= v {
        AtNE(m, q, u, v);
      } else if u < q {
        AtSW(m, q, u, v);
      } else {
        AtSE(m, q, u, v);
      }
      AtOutside(n, X, Y);
    }
  }

  lemma {:induction false} CentreSE(n: Node, z: Node, q: int, x: int, y: int)
    requires n.Valid() && n.Level() >= 1 && z.Valid() && z.Level() == n.Level() - 1 && q == Pow2(n.Level() - 1)
    requires forall x, y :: !z.At(x, y)
    requires 2 * q <= x < 4 * q && 0 <= y < 2 * q
    ensures Inner(n.se, z, z, z).At(x - 2 * q, y) == n.At(x - q, y - q)
  {
    var m := Inner(n.se, z, z, z);
    var u, v, X, Y := x - 2 * q, y, x - q, y - q;
    assert n.nw.Level() == n.Level() - 1 && n.Side() == 2 * q;
    if u < q && q <= v {
      AtNW(m, q, u, v);
      AtSE(n, q, X, Y);
      assert X - q == u && Y == v - q;
    } else {
      if u < q && q <= v {
        AtNW(m, q, u, v);
      } else if q <= u && q <= v {
        AtNE(m, q, u, v);
      } else if u < q {
        AtSW(m, q, u, v);
      } else {
        AtSE(m, q, u, v);
      }
      AtOutside(n, X, Y);
    }
  }

  /** Extending a node of level >= 1 puts it in the middle of the new node:
      the new node's cell (x, y) is the old one's cell (x - h, y - h), where h
      is half the old side, and everything else is dead. */
  lemma {:induction false} ExtendCentres(n: Node, q: int, x: int, y: int)
    requires n.Valid() && n.Level() >= 1 && q == Pow2(n.Level() - 1)
    ensures n.Extend().At(x, y) == n.At(x - q, y - q)
  {
    if 0 <= x < 4 * q && 0 <= y < 4 * q {
      ExtendQuadrant(n, q, x, y);
    } else {
      assert Pow2(n.Level() + 1) == 4 * q;
      AtOutside(n.Extend(), x, y);
      AtOutside(n, x - q, y - q);
    }
  }

  /** ExtendCentres seen from the south-west corners: the cell of the
      extended node at (x + 2h, y + 2h) is the old node's cell (x + h, y + h). */
  lemma ExtendShift(n: Node, q: int, Q: int, x: int, y: int)
    requires n.Valid() && n.Level() >= 1 && q == Pow2(n.Level() - 1) && Q == 2 * q
    ensures n.Extend().At(x + Q, y + Q) == n.At(x + q, y + q)
  {
    var X, Y := x + Q, y + Q;
    ExtendCentres(n, q, X, Y);
    assert X - q == x + q && Y - q == y + q;
  }

  /** ExtendCentres inside the new node, quadrant by quadrant. */
  lemma {:induction false} ExtendQuadrant(n: Node, q: int, x: int, y: int)
    requires n.Valid() && n.Level() >= 1 && q == Pow2(n.Level() - 1)
    requires 0 <= x < 4 * q && 0 <= y < 4 * q
    ensures n.Extend().At(x, y) == n.At(x - q, y - q)
  {
    var L := n.Level();
    var z := Zero(L - 1);
    forall x, y ensures !z.At(x, y) {
      ZeroIsDead(L - 1, x, y);
    }
    var r := Inner(Inner(z, z, z, n.nw), Inner(z, z, n.ne, z), Inner(z, n.sw, z, z), Inner(n.se, z, z, z));
    ExtendShape(n);
    assert n.Extend() == r;
    assert r.nw.Level() == L && Pow2(L) == 2 * q;
    var h := 2 * q;
    if x < h && h <= y {
      AtNW(r, h, x, y);
      CentreNW(n, z, q, x, y);
    } else if h <= x && h <= y {
      AtNE(r, h, x, y);
      CentreNE(n, z, q, x, y);
    } else if x < h {
      AtSW(r, h, x, y);
      CentreSW(n, z, q, x, y);
    } else {
      AtSE(r, h, x, y);
      CentreSE(n, z, q, x, y);
    }
  }
}
