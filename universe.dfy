/** HashLifeUniverse (hashlife.py): a pattern held as one quadtree root,
    with a generation counter.

    The root stands for the whole plane: a root of level L >= 1 covers the
    world square [-2^(L-1), 2^(L-1)) on both axes, and a level-0 root is the
    single cell (0, 0). `World` is that plane; loading a grid builds a root
    whose world is the grid, centred on the origin, and `extend` grows the
    root without changing its world. */
module Universe {
  import opened Counting
  import opened Quadtree
  import opened Forward

  /** The least k with 2^k >= v (load's ceil(log2(v)), computed exactly). */
  function CeilLog2(v: nat): (k: nat)
    ensures Pow2(k) >= v
    ensures k > 0 ==> Pow2(k - 1) < v
  {
    if v <= 1 then 0 else 1 + CeilLog2((v + 1) / 2)
  }

  /** A grid with at least n rows of at least m cells each, as load
      receives it: load reads rows [0, n) and columns [0, m) only. */
  predicate IsGrid(n: nat, m: nat, cells: seq<seq<bool>>)
  {
    |cells| >= n && forall r :: 0 <= r < n ==> |cells[r]| >= m
  }

  /** load's get: the grid cell at world position (i, j), the grid's centre
      cell (n // 2, m // 2) sitting at the origin; dead outside the grid. */
  function GridCell(n: nat, m: nat, cells: seq<seq<bool>>, i: int, j: int): bool
    requires IsGrid(n, m, cells)
  {
    var i, j := i + n / 2, j + m / 2;
    0 <= i < n && 0 <= j < m && cells[i][j]
  }

  /** How far the south-west corner of a root of level L lies from the
      origin, on each axis. */
  function Offset(level: nat): nat
  {
    if level == 0 then 0 else Pow2(level - 1)
  }

  /** The grid as a plane in world coordinates (load's get). */
  function Grid(n: nat, m: nat, cells: seq<seq<bool>>): Plane
    requires IsGrid(n, m, cells)
  {
    (i, j) => GridCell(n, m, cells, i, j)
  }

  /** load's create: the node of the given level centred on world position
      (i, j) (the cell (i, j) itself at level 0), reading cells from get. */
  function Create(get: Plane, i: int, j: int, level: nat): (r: Node)
    ensures r.Level() == level
    decreases level
  {
    if level == 0 then Cell(get(i, j))
    else
      var noffset := if level < 2 then 1 else Pow2(level - 2);
      var poffset := if level < 2 then 0 else Pow2(level - 2);
      var nw := Create(get, i - noffset, j + poffset, level - 1);
      var sw := Create(get, i - noffset, j - noffset, level - 1);
      var ne := Create(get, i + poffset, j + poffset, level - 1);
      var se := Create(get, i + poffset, j - noffset, level - 1);
      Inner(nw, ne, sw, se)
  }

  /** HashLifeUniverse.load: the root of the least level that holds the
      whole grid. */
  function LoadRoot(n: nat, m: nat, cells: seq<seq<bool>>): (r: Node)
    requires IsGrid(n, m, cells)
    ensures r.Valid() && r.Level() == CeilLog2(if n <= m then (if m < 1 then 1 else m) else n)
  {
    var v := if n <= m then (if m < 1 then 1 else m) else n;
    CreateValid(Grid(n, m, cells), 0, 0, CeilLog2(v));
    Create(Grid(n, m, cells), 0, 0, CeilLog2(v))
  }

  /** The cell of the world at (x, y) that a root stands for. */
  function WorldAt(root: Node, x: int, y: int): bool
  {
    root.At(x + Offset(root.Level()), y + Offset(root.Level()))
  }

  /** The plane a root stands for, in world coordinates. */
  function World(root: Node): Plane
  {
    (x, y) => WorldAt(root, x, y)
  }

  /** The children of a created node of level >= 1: each is created at
      the centre of its quadrant. */
  lemma CreateChildren(get: Plane, i: int, j: int, level: nat)
    requires level > 0
    ensures var no, po := if level < 2 then 1 else Pow2(level - 2), if level < 2 then 0 else Pow2(level - 2);
      Create(get, i, j, level) ==
        Inner(Create(get, i - no, j + po, level - 1), Create(get, i + po, j + po, level - 1),
              Create(get, i - no, j - no, level - 1), Create(get, i + po, j - no, level - 1))
  {
  }

  /** A created node is a valid quadtree. */
  lemma {:induction false} CreateValid(get: Plane, i: int, j: int, level: nat)
    ensures Create(get, i, j, level).Valid()
    decreases level
  {
    if level > 0 {
      var no, po := if level < 2 then 1 else Pow2(level - 2), if level < 2 then 0 else Pow2(level - 2);
      CreateChildren(get, i, j, level);
      CreateValid(get, i - no, j + po, level - 1);
      CreateValid(get, i + po, j + po, level - 1);
      CreateValid(get, i - no, j - no, level - 1);
      CreateValid(get, i + po, j - no, level - 1);
    }
  }

  // The four quadrants of a created node, each read from the child
  // created for it.

  lemma CreateNW(get: Plane, i: int, j: int, level: nat, x: int, y: int)
    requires level > 0 && 0 <= x < Pow2(level - 1) <= y < 2 * Pow2(level - 1)
    ensures var no, po := if level < 2 then 1 else Pow2(level - 2), if level < 2 then 0 else Pow2(level - 2);
      Create(get, i, j, level).At(x, y) == Create(get, i - no, j + po, level - 1).At(x, y - Pow2(level - 1))
  {
    CreateChildren(get, i, j, level);
    AtNW(Create(get, i, j, level), Pow2(level - 1), x, y);
  }

  lemma CreateNE(get: Plane, i: int, j: int, level: nat, x: int, y: int)
    requires level > 0 && Pow2(level - 1) <= x < 2 * Pow2(level - 1) && Pow2(level - 1) <= y < 2 * Pow2(level - 1)
    ensures var po := if level < 2 then 0 else Pow2(level - 2);
      Create(get, i, j, level).At(x, y) == Create(get, i + po, j + po, level - 1).At(x - Pow2(level - 1), y - Pow2(level - 1))
  {
    CreateChildren(get, i, j, level);
    AtNE(Create(get, i, j, level), Pow2(level - 1), x, y);
  }

  lemma CreateSW(get: Plane, i: int, j: int, level: nat, x: int, y: int)
    requires level > 0 && 0 <= x < Pow2(level - 1) && 0 <= y < Pow2(level - 1)
    ensures var no := if level < 2 then 1 else Pow2(level - 2);
      Create(get, i, j, level).At(x, y) == Create(get, i - no, j - no, level - 1).At(x, y)
  {
    CreateChildren(get, i, j, level);
    AtSW(Create(get, i, j, level), Pow2(level - 1), x, y);
  }

  lemma CreateSE(get: Plane, i: int, j: int, level: nat, x: int, y: int)
    requires level > 0 && Pow2(level - 1) <= x < 2 * Pow2(level - 1) && 0 <= y < Pow2(level - 1)
    ensures var no, po := if level < 2 then 1 else Pow2(level - 2), if level < 2 then 0 else Pow2(level - 2);
      Create(get, i, j, level).At(x, y) == Create(get, i + po, j - no, level - 1).At(x - Pow2(level - 1), y)
  {
    CreateChildren(get, i, j, level);
    AtSE(Create(get, i, j, level), Pow2(level - 1), x, y);
  }

  // The four quadrants of a created node, with the child's centre (ci, cj)
  // and the cell's position (cx, cy) in the child given by name.

  lemma CreateInNW(get: Plane, i: int, j: int, level: nat, x: int, y: int, ci: int, cj: int, cx: int, cy: int)
    requires level > 0
    requires var h, no, po := Pow2(level - 1), if level < 2 then 1 else Pow2(level - 2), if level < 2 then 0 else Pow2(level - 2);
      0 <= x < h <= y < 2 * h && ci == i - no && cj == j + po && cx == x && cy == y - h
    ensures Create(get, i, j, level).At(x, y) == Create(get, ci, cj, level - 1).At(cx, cy)
  {
    CreateNW(get, i, j, level, x, y);
  }

  lemma CreateInNE(get: Plane, i: int, j: int, level: nat, x: int, y: int, ci: int, cj: int, cx: int, cy: int)
    requires level > 0
    requires var h, no, po := Pow2(level - 1), if level < 2 then 1 else Pow2(level - 2), if level < 2 then 0 else Pow2(level - 2);
      h <= x < 2 * h && h <= y < 2 * h && ci == i + po && cj == j + po && cx == x - h && cy == y - h
    ensures Create(get, i, j, level).At(x, y) == Create(get, ci, cj, level - 1).At(cx, cy)
  {
    CreateNE(get, i, j, level, x, y);
  }

  lemma CreateInSW(get: Plane, i: int, j: int, level: nat, x: int, y: int, ci: int, cj: int, cx: int, cy: int)
    requires level > 0
    requires var h, no, po := Pow2(level - 1), if level < 2 then 1 else Pow2(level - 2), if level < 2 then 0 else Pow2(level - 2);
      0 <= x < h && 0 <= y < h && ci == i - no && cj == j - no && cx == x && cy == y
    ensures Create(get, i, j, level).At(x, y) == Create(get, ci, cj, level - 1).At(cx, cy)
  {
    CreateSW(get, i, j, level, x, y);
  }

  lemma CreateInSE(get: Plane, i: int, j: int, level: nat, x: int, y: int, ci: int, cj: int, cx: int, cy: int)
    requires level > 0
    requires var h, no, po := Pow2(level - 1), if level < 2 then 1 else Pow2(level - 2), if level < 2 then 0 else Pow2(level - 2);
      h <= x < 2 * h && 0 <= y < h && ci == i + po && cj == j - no && cx == x - h && cy == y
    ensures Create(get, i, j, level).At(x, y) == Create(get, ci, cj, level - 1).At(cx, cy)
  {
    CreateSE(get, i, j, level, x, y);
  }

  /** Outside its square a created node is dead. */
  lemma CreateOutside(get: Plane, i: int, j: int, level: nat, x: int, y: int)
    requires !(0 <= x < Pow2(level) && 0 <= y < Pow2(level))
    ensures !Create(get, i, j, level).At(x, y)
  {
    if level > 0 {
      CreateChildren(get, i, j, level);
    }
  }

  /** The cells of a created node are the cells of get in its square. */
  lemma CreateAt(get: Plane, i: int, j: int, level: nat, x: int, y: int)
    ensures Create(get, i, j, level).At(x, y) ==
              (0 <= x < Pow2(level) && 0 <= y < Pow2(level) && get(i - Offset(level) + x, j - Offset(level) + y))
  {
    if !(0 <= x < Pow2(level) && 0 <= y < Pow2(level)) {
      CreateOutside(get, i, j, level, x, y);
    } else {
      CreateCell(get, i, j, level, x, y, i - Offset(level) + x, j - Offset(level) + y);
    }
  }

  /** CreateAt inside the square, for the cell that lands on world
      position (a, b). */
  lemma {:induction false} CreateCell(get: Plane, i: int, j: int, level: nat, x: int, y: int, a: int, b: int)
    requires 0 <= x < Pow2(level) && 0 <= y < Pow2(level)
    requires a == i - Offset(level) + x && b == j - Offset(level) + y
    ensures Create(get, i, j, level).At(x, y) == get(a, b)
    decreases level
  {
    if level > 0 {
      var h := Pow2(level - 1);
      var no := if level < 2 then 1 else Pow2(level - 2);
      var po := if level < 2 then 0 else Pow2(level - 2);
      assert Pow2(level) == 2 * h && Offset(level) == h && no == h - Offset(level - 1) && po == Offset(level - 1);
      var ci, cx := if x < h then i - no else i + po, if x < h then x else x - h;
      var cj, cy := if y < h then j - no else j + po, if y < h then y else y - h;
      if h <= y {
        if x < h {
          CreateInNW(get, i, j, level, x, y, ci, cj, cx, cy);
        } else {
          CreateInNE(get, i, j, level, x, y, ci, cj, cx, cy);
        }
      } else {
        if x < h {
          CreateInSW(get, i, j, level, x, y, ci, cj, cx, cy);
        } else {
          CreateInSE(get, i, j, level, x, y, ci, cj, cx, cy);
        }
      }
      CreateCell(get, ci, cj, level - 1, cx, cy, a, b);
    }
  }

  /** A grid index of a side that fits in 2^L lies in the root's square. */
  lemma Fits(n: nat, level: nat, x: int)
    requires n <= Pow2(level) && 0 <= x + n / 2 < n
    ensures 0 <= x + Offset(level) < Pow2(level)
  {
    if level > 0 {
      assert Pow2(level) == 2 * Offset(level);
    }
  }

  /** The world cell of a root of known level. */
  lemma WorldAtLevel(root: Node, level: nat, x: int, y: int)
    requires root.Level() == level
    ensures WorldAt(root, x, y) == root.At(x + Offset(level), y + Offset(level))
  {
  }

  /** A root created around (i, j) stands for get on its square,
      shifted so that (i, j) sits at the origin. */
  lemma CreateWorld(get: Plane, i: int, j: int, level: nat, x: int, y: int)
    ensures WorldAt(Create(get, i, j, level), x, y) ==
              (0 <= x + Offset(level) < Pow2(level) && 0 <= y + Offset(level) < Pow2(level) && get(i + x, j + y))
  {
    var o := Offset(level);
    WorldAtLevel(Create(get, i, j, level), level, x, y);
    if 0 <= x + o < Pow2(level) && 0 <= y + o < Pow2(level) {
      CreateCell(get, i, j, level, x + o, y + o, i + x, j + y);
    } else {
      CreateOutside(get, i, j, level, x + o, y + o);
    }
  }

  /** The loaded root is the node created around the origin. */
  lemma LoadRootIsCreate(n: nat, m: nat, cells: seq<seq<bool>>)
    requires IsGrid(n, m, cells)
    ensures LoadRoot(n, m, cells) ==
              Create(Grid(n, m, cells), 0, 0, CeilLog2(if n <= m then (if m < 1 then 1 else m) else n))
  {
  }

  /** A live grid cell lies in the square of a root whose side holds both
      sides of the grid. */
  lemma GridFits(n: nat, m: nat, cells: seq<seq<bool>>, level: nat, x: int, y: int)
    requires IsGrid(n, m, cells) && n <= Pow2(level) && m <= Pow2(level)
    requires GridCell(n, m, cells, x, y)
    ensures 0 <= x + Offset(level) < Pow2(level) && 0 <= y + Offset(level) < Pow2(level)
  {
    Fits(n, level, x);
    Fits(m, level, y);
  }

  /** The loaded root stands for the grid: every live cell of the world is
      a live grid cell and conversely. */
  lemma LoadWorld(n: nat, m: nat, cells: seq<seq<bool>>, x: int, y: int)
    requires IsGrid(n, m, cells)
    ensures WorldAt(LoadRoot(n, m, cells), x, y) == GridCell(n, m, cells, x, y)
  {
    var v := if n <= m then (if m < 1 then 1 else m) else n;
    var L := CeilLog2(v);
    assert n <= v && m <= v && v <= Pow2(L);
    LoadRootIsCreate(n, m, cells);
    CreateGridWorld(n, m, cells, Grid(n, m, cells), L, x, y);
  }

  /** The population of the loaded root is the number of live cells of
      the grid. */
  lemma LoadPopulation(n: nat, m: nat, cells: seq<seq<bool>>)
    requires IsGrid(n, m, cells)
    ensures LoadRoot(n, m, cells).Population() == Count(Grid(n, m, cells), -(n / 2), n - n / 2, -(m / 2), m - m / 2)
  {
    var r := LoadRoot(n, m, cells);
    var g := Grid(n, m, cells);
    var L := r.Level();
    var S: int := Pow2(L);
    var o: int := Offset(L);
    PopulationIsLiveCount(r);
    assert r.Side() == S;
    LoadCount(n, m, cells, r, g, L, S, o);
    LoadBounds(n, m, cells, L, S, o);
    GridCount(n, m, cells, g, S, o);
  }

  /** The live cells of the loaded root's square, counted in world
      coordinates. */
  lemma LoadCount(n: nat, m: nat, cells: seq<seq<bool>>, r: Node, g: Plane, L: nat, S: int, o: int)
    requires IsGrid(n, m, cells) && r == LoadRoot(n, m, cells) && g == Grid(n, m, cells)
    requires L == r.Level() && S == Pow2(L) && o == Offset(L)
    ensures Count(Cells(r), 0, S, 0, S) == Count(g, -o, S - o, -o, S - o)
  {
    forall x, y | 0 <= x < S && 0 <= y < S ensures Cells(r)(x, y) == g(x + -o, y + -o) {
      LoadCell(n, m, cells, r, g, L, o, x, y);
    }
    ShiftedCount(Cells(r), g, S, o);
  }

  /** A square of side S at the origin, counted on a plane moved by -o on
      both axes. */
  lemma ShiftedCount(f: Plane, g: Plane, S: int, o: int)
    requires forall x, y :: 0 <= x < S && 0 <= y < S ==> f(x, y) == g(x + -o, y + -o)
    ensures Count(f, 0, S, 0, S) == Count(g, -o, S - o, -o, S - o)
  {
    CountShift(f, g, -o, -o, 0, S, 0, S);
    assert 0 + -o == -o && S + -o == S - o;
  }

  /** The grid counted on a square around its rectangle. */
  lemma GridCount(n: nat, m: nat, cells: seq<seq<bool>>, g: Plane, S: int, o: int)
    requires IsGrid(n, m, cells) && g == Grid(n, m, cells)
    requires -o <= -(n / 2) && n - n / 2 <= S - o && -o <= -(m / 2) && m - m / 2 <= S - o
    ensures Count(g, -o, S - o, -o, S - o) == Count(g, -(n / 2), n - n / 2, -(m / 2), m - m / 2)
  {
    GridDeadOutside(n, m, cells, g);
    CountInner(g, -o, -(n / 2), n - n / 2, S - o, -o, -(m / 2), m - m / 2, S - o);
  }

  /** The loaded root's square, [-o, S - o) on each axis, holds the grid's
      rectangle. */
  lemma LoadBounds(n: nat, m: nat, cells: seq<seq<bool>>, L: nat, S: int, o: int)
    requires IsGrid(n, m, cells) && L == LoadRoot(n, m, cells).Level() && S == Pow2(L) && o == Offset(L)
    ensures -o <= -(n / 2) && n - n / 2 <= S - o && -o <= -(m / 2) && m - m / 2 <= S - o
  {
    var v := if n <= m then (if m < 1 then 1 else m) else n;
    assert n <= S && m <= S;
    if L >= 1 {
      assert S == 2 * o;
    }
  }

  /** A cell of the loaded root, read as a grid cell. */
  lemma LoadCell(n: nat, m: nat, cells: seq<seq<bool>>, r: Node, g: Plane, L: nat, o: int, x: int, y: int)
    requires IsGrid(n, m, cells) && r == LoadRoot(n, m, cells) && g == Grid(n, m, cells)
    requires L == r.Level() && o == Offset(L)
    ensures Cells(r)(x, y) == g(x + -o, y + -o)
  {
    var u, w := x + -o, y + -o;
    LoadWorld(n, m, cells, u, w);
    WorldAtLevel(r, L, u, w);
    assert u + o == x && w + o == y;
  }

  /** The grid's live cells lie in its rectangle, centred as get places it. */
  lemma GridDeadOutside(n: nat, m: nat, cells: seq<seq<bool>>, g: Plane)
    requires IsGrid(n, m, cells) && g == Grid(n, m, cells)
    ensures forall x, y :: !(-(n / 2) <= x < n - n / 2 && -(m / 2) <= y < m - m / 2) ==> !g(x, y)
  {
  }

  /** The node create builds from the grid, with a side that holds both
      sides of the grid, stands for the grid. */
  lemma CreateGridWorld(n: nat, m: nat, cells: seq<seq<bool>>, get: Plane, level: nat, x: int, y: int)
    requires IsGrid(n, m, cells) && get == Grid(n, m, cells) && n <= Pow2(level) && m <= Pow2(level)
    ensures WorldAt(Create(get, 0, 0, level), x, y) == GridCell(n, m, cells, x, y)
  {
    CreateWorld(get, 0, 0, level, x, y);
    assert get(x, y) == GridCell(n, m, cells, x, y);
    if GridCell(n, m, cells, x, y) {
      GridFits(n, m, cells, level, x, y);
    }
  }

  /** World preservation by one extension: the extended root stands for
      the same plane. */
  lemma ExtendWorld(r: Node, x: int, y: int)
    requires r.Valid()
    ensures WorldAt(r.Extend(), x, y) == WorldAt(r, x, y)
  {
    if r.Level() == 0 {
      ExtendCellWorld(r, x, y);
    } else {
      ExtendInnerWorld(r, x, y);
    }
  }

  lemma ExtendCellWorld(r: Node, x: int, y: int)
    requires r.Valid() && r.Level() == 0
    ensures WorldAt(r.Extend(), x, y) == WorldAt(r, x, y)
  {
    var e := Inner(Cell(false), r, Cell(false), Cell(false));
    assert r.Extend() == e;
    WorldAtLevel(e, 1, x, y);
    AtInner(e, x + 1, y + 1);
  }

  lemma {:induction false} ExtendInnerWorld(r: Node, x: int, y: int)
    requires r.Valid() && r.Level() >= 1
    ensures WorldAt(r.Extend(), x, y) == WorldAt(r, x, y)
  {
    var L := r.Level();
    var o: int := Offset(L);
    var O: int := Offset(L + 1);
    OffsetPair(L, o, O);
    ExtendShift(r, o, O, x, y);
    CentredWorld(r, r.Extend(), L, o, O, x, y);
  }

  /** The offsets of two consecutive levels >= 1. */
  lemma OffsetPair(level: nat, o: int, O: int)
    requires level >= 1 && o == Offset(level) && O == Offset(level + 1)
    ensures O == 2 * o && o == Pow2(level - 1)
  {
  }

  /** A world cell of a node e one level above r, read at the place of r's
      matching cell; o and O are the offsets of the two levels. */
  lemma CentredWorld(r: Node, e: Node, level: nat, o: int, O: int, x: int, y: int)
    requires r.Level() == level && e.Level() == level + 1 && o == Offset(level) && O == Offset(level + 1)
    requires e.At(x + O, y + O) == r.At(x + o, y + o)
    ensures WorldAt(e, x, y) == WorldAt(r, x, y)
  {
    WorldAtLevel(r, level, x, y);
    WorldAtLevel(e, level + 1, x, y);
  }

  /** peripheral_band as written: eleven of the twelve outer grandchildren
      of the root, nw.ne listed twice and ne.ne not at all. */
  function Band(r: Node): (b: seq<Node>)
    requires r.Valid() && r.Level() >= 2
    ensures |b| == 12
    ensures b[1] == r.nw.ne && b[3] == r.nw.ne
    ensures forall c :: c in b ==> c in {r.nw.nw, r.nw.ne, r.ne.nw, r.ne.se, r.se.ne, r.se.se,
                                         r.se.sw, r.sw.se, r.sw.sw, r.sw.nw, r.nw.sw}
  {
    [r.nw.nw, r.nw.ne, r.ne.nw, r.nw.ne, r.ne.se, r.se.ne, r.se.se, r.se.sw, r.sw.se, r.sw.sw, r.sw.nw, r.nw.sw]
  }

  /** check_empty: every node of the list has population zero. */
  predicate AllEmpty(p: seq<Node>)
  {
    forall i :: 0 <= i < |p| ==> p[i].Population() == 0
  }

  /** max(k, 2), the least level extend settles for. */
  function MinLevel(k: int): nat
  {
    if k < 2 then 2 else k
  }

  /** The exit condition of extend's loop. */
  predicate Padded(r: Node, k: int)
    requires r.Valid()
  {
    r.Level() >= MinLevel(k) && AllEmpty(Band(r))
  }

  /** A root of level >= 2 that is the extension of a root of level >= 1
      has an empty band: every outer grandchild is the dead node. */
  lemma ExtendedBandEmpty(r: Node)
    requires r.Valid()
    ensures r.Level() >= 1 ==> AllEmpty(Band(r.Extend()))
  {
    if r.Level() >= 1 {
      ExtendPlacement(r);
      RingEmpty(r.Extend());
    }
  }

  /** A root whose outer ring is the dead node has both bands empty. */
  lemma RingEmpty(r: Node)
    requires r.Valid() && r.Level() >= 2 && OuterRingIsZero(r)
    ensures AllEmpty(Band(r)) && AllEmpty(BandFixed(r))
  {
    var z := Zero(r.Level() - 2);
    assert Band(r) == [z, z, z, z, z, z, z, z, z, z, z, z];
    assert BandFixed(r) == [z, z, z, z, z, z, z, z, z, z, z, z];
  }

  /** How many more extensions extend's loop takes at most. */
  function ExtendBound(r: Node, k: int): nat
    requires r.Valid()
  {
    if r.Level() < MinLevel(k) then MinLevel(k) - r.Level() + 1
    else if AllEmpty(Band(r)) then 0 else 1
  }

  /** HashLifeUniverse.extend(k) on values: extend the root until its level
      is at least max(k, 2) and its peripheral band is empty. */
  function ExtendUntil(r: Node, k: int): (e: Node)
    requires r.Valid()
    ensures e.Valid() && Padded(e, k)
    ensures Padded(r, k) ==> e == r
    ensures !Padded(r, k) ==> e.Level() > r.Level()
    decreases ExtendBound(r, k)
  {
    if Padded(r, k) then r
    else
      ExtendedBandEmpty(r);
      ExtendUntil(r.Extend(), k)
  }

  /** extend never changes the world or the population. */
  lemma {:induction false} ExtendUntilWorld(r: Node, k: int, x: int, y: int)
    requires r.Valid()
    ensures WorldAt(ExtendUntil(r, k), x, y) == WorldAt(r, x, y)
    ensures ExtendUntil(r, k).Population() == r.Population()
    decreases ExtendBound(r, k)
  {
    if !Padded(r, k) {
      ExtendedBandEmpty(r);
      ExtendWorld(r, x, y);
      ExtendUntilWorld(r.Extend(), k, x, y);
    }
  }

  /** The peripheral band as evidently intended: the twelve grandchildren
      on the border of the root, ne.ne in place of the second nw.ne. */
  function BandFixed(r: Node): (b: seq<Node>)
    requires r.Valid() && r.Level() >= 2
    ensures |b| == 12
  {
    [r.nw.nw, r.nw.ne, r.ne.nw, r.ne.ne, r.ne.se, r.se.ne, r.se.se, r.se.sw, r.sw.se, r.sw.sw, r.sw.nw, r.nw.sw]
  }

  /** The exit condition of extend's loop with the corrected band. */
  predicate PaddedFixed(r: Node, k: int)
    requires r.Valid()
  {
    r.Level() >= MinLevel(k) && AllEmpty(BandFixed(r))
  }

  /** The corrected band of an extended root of level >= 1 is empty. */
  lemma ExtendedBandFixedEmpty(r: Node)
    requires r.Valid()
    ensures r.Level() >= 1 ==> AllEmpty(BandFixed(r.Extend()))
  {
    if r.Level() >= 1 {
      ExtendPlacement(r);
      RingEmpty(r.Extend());
    }
  }

  function ExtendBoundFixed(r: Node, k: int): nat
    requires r.Valid()
  {
    if r.Level() < MinLevel(k) then MinLevel(k) - r.Level() + 1
    else if AllEmpty(BandFixed(r)) then 0 else 1
  }

  /** extend(k) with the corrected band. */
  function ExtendUntilFixed(r: Node, k: int): (e: Node)
    requires r.Valid()
    ensures e.Valid() && PaddedFixed(e, k)
    ensures PaddedFixed(r, k) ==> e == r
    ensures !PaddedFixed(r, k) ==> e.Level() > r.Level()
    decreases ExtendBoundFixed(r, k)
  {
    if PaddedFixed(r, k) then r
    else
      ExtendedBandFixedEmpty(r);
      ExtendUntilFixed(r.Extend(), k)
  }

  /** The corrected extend changes neither the world nor the population. */
  lemma {:induction false} ExtendUntilFixedWorld(r: Node, k: int, x: int, y: int)
    requires r.Valid()
    ensures WorldAt(ExtendUntilFixed(r, k), x, y) == WorldAt(r, x, y)
    ensures ExtendUntilFixed(r, k).Population() == r.Population()
    decreases ExtendBoundFixed(r, k)
  {
    if !PaddedFixed(r, k) {
      ExtendedBandFixedEmpty(r);
      ExtendWorld(r, x, y);
      ExtendUntilFixedWorld(r.Extend(), k, x, y);
    }
  }
}
