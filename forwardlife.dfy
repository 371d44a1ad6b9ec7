/** What forward computes, measured against the Life rule.

    A node of level L >= 2 laid over a square of side 2^L of some plane
    p: forward with an exponent l <= L - 2 returns the node of level L - 1
    laid over the middle of that square, 2^l generations later (one
    generation when l <= 0). The plane is arbitrary: whatever lies outside
    the square cannot reach the middle in that time. */
module ForwardLife {
  import opened Counting
  import opened Life
  import opened Quadtree
  import opened BaseCase
  import opened Forward
  import opened Wrappers

  /** Node n, of side s, shows the square of plane p whose south-west
      corner is (a, b): its cell (x, y) is p(x + a, y + b). */
  ghost predicate Shows(n: Node, s: int, p: Plane, a: int, b: int)
  {
    forall x, y {:trigger Agrees(n, p, a, b, x, y)} :: 0 <= x < s && 0 <= y < s ==> Agrees(n, p, a, b, x, y)
  }

  /** Cell (x, y) of n is cell (x + a, y + b) of p. */
  ghost predicate Agrees(n: Node, p: Plane, a: int, b: int, x: int, y: int)
  {
    n.At(x, y) == p(x + a, y + b)
  }

  /** The number of generations forward advances with exponent l. */
  function Gens(l: int): (g: nat)
    ensures g >= 1
  {
    if l <= 0 then 1 else Pow2(l)
  }

  lemma {:induction false} Pow2Mono(i: nat, j: nat)
    requires i <= j
    ensures Pow2(i) <= Pow2(j)
    decreases j
  {
    if i < j {
      Pow2Mono(i, j - 1);
    }
  }

  /* Lemmas below take the coordinates of the grid lines they talk about
     as parameters (x0, x1 = x0 + h, ...), together with the sides of the
     squares (s = 2h, ...), so that the squares a lemma produces and the
     squares the next lemma consumes are named by the same terms. */

  /** The four children of a node showing a square of side s = 2h with
      south-west corner (x0, y0) show its four quarters. */
  lemma {:induction false} ShowsQuadrants(n: Node, h: int, s: int, p: Plane, x0: int, x1: int, y0: int, y1: int)
    requires n.Inner? && h == Pow2(n.nw.Level()) && s == 2 * h && x1 == x0 + h && y1 == y0 + h
    requires Shows(n, s, p, x0, y0)
    ensures Shows(n.nw, h, p, x0, y1) && Shows(n.ne, h, p, x1, y1)
    ensures Shows(n.sw, h, p, x0, y0) && Shows(n.se, h, p, x1, y0)
  {
    forall x, y | 0 <= x < h && 0 <= y < h ensures Agrees(n.nw, p, x0, y1, x, y) {
      assert Agrees(n, p, x0, y0, x, y + h);
      AtNW(n, h, x, y + h);
    }
    forall x, y | 0 <= x < h && 0 <= y < h ensures Agrees(n.ne, p, x1, y1, x, y) {
      assert Agrees(n, p, x0, y0, x + h, y + h);
      AtNE(n, h, x + h, y + h);
    }
    forall x, y | 0 <= x < h && 0 <= y < h ensures Agrees(n.sw, p, x0, y0, x, y) {
      assert Agrees(n, p, x0, y0, x, y);
      AtSW(n, h, x, y);
    }
    forall x, y | 0 <= x < h && 0 <= y < h ensures Agrees(n.se, p, x1, y0, x, y) {
      assert Agrees(n, p, x0, y0, x + h, y);
      AtSE(n, h, x + h, y);
    }
  }

  /** A node whose four children show the four quarters of a square of
      side s = 2h shows the square. */
  lemma {:induction false} ShowsInner(n: Node, h: int, s: int, p: Plane, x0: int, x1: int, y0: int, y1: int)
    requires n.Inner? && h == Pow2(n.nw.Level()) && s == 2 * h && x1 == x0 + h && y1 == y0 + h
    requires Shows(n.nw, h, p, x0, y1) && Shows(n.ne, h, p, x1, y1)
    requires Shows(n.sw, h, p, x0, y0) && Shows(n.se, h, p, x1, y0)
    ensures Shows(n, s, p, x0, y0)
  {
    forall x, y | 0 <= x < s && 0 <= y < s ensures Agrees(n, p, x0, y0, x, y) {
      if h <= y {
        if x < h {
          assert Agrees(n.nw, p, x0, y1, x, y - h);
          AtNW(n, h, x, y);
        } else {
          assert Agrees(n.ne, p, x1, y1, x - h, y - h);
          AtNE(n, h, x, y);
        }
      } else {
        if x < h {
          assert Agrees(n.sw, p, x0, y0, x, y);
          AtSW(n, h, x, y);
        } else {
          assert Agrees(n.se, p, x1, y0, x - h, y);
          AtSE(n, h, x, y);
        }
      }
    }
  }

  /** The square straddling the border between two side-by-side nodes,
      a to the west and b to the east. */
  function Across(a: Node, b: Node): Node
    requires a.Inner? && b.Inner?
  {
    Inner(a.ne, b.nw, a.se, b.sw)
  }

  /** The square straddling the border between two stacked nodes, a to the
      north and c to the south. */
  function Upright(a: Node, c: Node): Node
    requires a.Inner? && c.Inner?
  {
    Inner(a.sw, a.se, c.nw, c.ne)
  }

  /** The square at the meeting point of four nodes laid out as nw, ne,
      sw, se. */
  function Middle(a: Node, b: Node, c: Node, d: Node): Node
    requires a.Inner? && b.Inner? && c.Inner? && d.Inner?
  {
    Inner(a.se, b.sw, c.ne, d.nw)
  }

  /** A valid node of level k + 1 is interior, with children of level k. */
  lemma ChildLevels(a: Node, k: nat)
    requires a.Valid() && a.Level() == k + 1
    ensures a.Inner? && a.nw.Level() == k && a.ne.Level() == k && a.sw.Level() == k && a.se.Level() == k
  {
  }

  /** Two side-by-side squares of side s = 2h, at x0 and x2 = x0 + s: the
      square straddling their border, at x1 = x0 + h, is shown by Across. */
  lemma {:induction false} ShowsAcross(a: Node, b: Node, k: nat, h: int, s: int, p: Plane,
                                       x0: int, x1: int, x2: int, y0: int)
    requires a.Valid() && b.Valid() && a.Level() == k + 1 && b.Level() == k + 1
    requires h == Pow2(k) && s == 2 * h && x1 == x0 + h && x2 == x1 + h
    requires Shows(a, s, p, x0, y0) && Shows(b, s, p, x2, y0)
    ensures Across(a, b).Valid() && Across(a, b).Level() == k + 1
    ensures Shows(Across(a, b), s, p, x1, y0)
  {
    ChildLevels(a, k);
    ChildLevels(b, k);
    var x3, y1 := x2 + h, y0 + h;
    ShowsQuadrants(a, h, s, p, x0, x1, y0, y1);
    ShowsQuadrants(b, h, s, p, x2, x3, y0, y1);
    ShowsInner(Across(a, b), h, s, p, x1, x2, y0, y1);
  }

  /** Two stacked squares of side s = 2h, at y2 = y0 + s and y0: the square
      straddling their border, at y1 = y0 + h, is shown by Upright. */
  lemma {:induction false} ShowsUpright(a: Node, c: Node, k: nat, h: int, s: int, p: Plane,
                                        x0: int, y0: int, y1: int, y2: int)
    requires a.Valid() && c.Valid() && a.Level() == k + 1 && c.Level() == k + 1
    requires h == Pow2(k) && s == 2 * h && y1 == y0 + h && y2 == y1 + h
    requires Shows(a, s, p, x0, y2) && Shows(c, s, p, x0, y0)
    ensures Shows(Upright(a, c), s, p, x0, y1)
  {
    ChildLevels(a, k);
    ChildLevels(c, k);
    var x1, y3 := x0 + h, y2 + h;
    ShowsQuadrants(a, h, s, p, x0, x1, y2, y3);
    ShowsQuadrants(c, h, s, p, x0, x1, y0, y1);
    ShowsInner(Upright(a, c), h, s, p, x0, x1, y1, y2);
  }

  /** Four squares of side s = 2h around a point: the square centred on
      that point is shown by Middle. */
  lemma {:induction false} ShowsMiddle(a: Node, b: Node, c: Node, d: Node, k: nat, h: int, s: int, p: Plane,
                                       x0: int, x1: int, x2: int, y0: int, y1: int, y2: int)
    requires a.Valid() && b.Valid() && c.Valid() && d.Valid()
    requires a.Level() == k + 1 && b.Level() == k + 1 && c.Level() == k + 1 && d.Level() == k + 1
    requires h == Pow2(k) && s == 2 * h && x1 == x0 + h && x2 == x1 + h && y1 == y0 + h && y2 == y1 + h
    requires Shows(a, s, p, x0, y2) && Shows(b, s, p, x2, y2)
    requires Shows(c, s, p, x0, y0) && Shows(d, s, p, x2, y0)
    ensures Shows(Middle(a, b, c, d), s, p, x1, y1)
  {
    ShowsAcross(a, b, k, h, s, p, x0, x1, x2, y2);
    ShowsAcross(c, d, k, h, s, p, x0, x1, x2, y0);
    ShowsUpright(Across(a, b), Across(c, d), k, h, s, p, x1, y0, y1, y2);
    assert Middle(a, b, c, d) == Upright(Across(a, b), Across(c, d));
  }

  /** A node showing a square of side S = 4h: its nine windows show the
      nine squares of side s = 2h whose corners lie on the grid x0, x1, x2
      by y0, y1, y2 of step h. */
  lemma {:induction false} ShowsWindows(n: Node, k: nat, h: int, s: int, S: int, p: Plane,
                                        x0: int, x1: int, x2: int, y0: int, y1: int, y2: int)
    requires n.Valid() && n.Level() == k + 2 && h == Pow2(k) && s == 2 * h && S == 2 * s
    requires x1 == x0 + h && x2 == x1 + h && y1 == y0 + h && y2 == y1 + h
    requires Shows(n, S, p, x0, y0)
    ensures Shows(WinNW(n), s, p, x0, y2) && Shows(WinTC(n), s, p, x1, y2) && Shows(WinNE(n), s, p, x2, y2)
    ensures Shows(WinCL(n), s, p, x0, y1) && Shows(WinCC(n), s, p, x1, y1) && Shows(WinCR(n), s, p, x2, y1)
    ensures Shows(WinSW(n), s, p, x0, y0) && Shows(WinBC(n), s, p, x1, y0) && Shows(WinSE(n), s, p, x2, y0)
  {
    ChildLevels(n, k + 1);
    assert Pow2(k + 1) == s;
    var nw, ne, sw, se := n.nw, n.ne, n.sw, n.se;
    var x3, y3 := x2 + h, y2 + h;
    ShowsQuadrants(n, s, S, p, x0, x2, y0, y2);
    ShowsAcross(nw, ne, k, h, s, p, x0, x1, x2, y2);
    ShowsAcross(sw, se, k, h, s, p, x0, x1, x2, y0);
    ShowsUpright(nw, sw, k, h, s, p, x0, y0, y1, y2);
    ShowsUpright(ne, se, k, h, s, p, x2, y0, y1, y2);
    ShowsMiddle(nw, ne, sw, se, k, h, s, p, x0, x1, x2, y0, y1, y2);
    assert WinNW(n) == nw && WinNE(n) == ne && WinSW(n) == sw && WinSE(n) == se;
    assert WinTC(n) == Across(nw, ne) && WinBC(n) == Across(sw, se);
    assert WinCL(n) == Upright(nw, sw) && WinCR(n) == Upright(ne, se);
    assert WinCC(n) == Middle(nw, ne, sw, se);
  }

  /** The sides of the squares forward works with at level L: the node
      covers S = 2^L, the result s = 2^(L-1), and it sits q = 2^(L-2) in. */
  ghost predicate Sides(level: nat, S: int, s: int, q: int)
  {
    level >= 2 && S == Pow2(level) && s == Pow2(level - 1) && q == Pow2(level - 2)
  }

  /** A dead node: the middle of a dead square stays dead, and the dead
      node one level down shows it. */
  lemma {:induction false} DeadShows(n: Node, level: nat, l: int, p: Plane, S: int, s: int, q: int,
                                     a: int, b: int, c: int, d: int)
    requires n.Valid() && n.Level() == level && Sides(level, S, s, q) && l <= level - 2
    requires n.Population() == 0 && c == a + q && d == b + q
    requires Shows(n, S, p, a, b)
    ensures Shows(Zero(level - 1), s, Iter(p, Gens(l)), c, d)
  {
    assert s == 2 * q && S == 4 * q;
    PopulationZeroIffDead(n);
    forall x, y | a <= x < a + S && b <= y < b + S ensures !p(x, y) {
      assert Agrees(n, p, a, b, x - a, y - b);
      assert !n.At(x - a, y - b);
    }
    var g := Gens(l);
    if l > 0 {
      Pow2Mono(l, level - 2);
    }
    IterDeadOn(p, g, c, c + s, d, d + s);
    var z, r := Zero(level - 1), Iter(p, g);
    forall x, y | 0 <= x < s && 0 <= y < s ensures Agrees(z, r, c, d, x, y) {
      ZeroIsDead(level - 1, x, y);
    }
  }

  /** One cell of the centre of a level-2 node showing a 4 by 4 square:
      its neighbourhood in the node is its neighbourhood in p. */
  lemma BaseCell(n: Node, p: Plane, a: int, b: int, u: int, v: int)
    requires Shows(n, 4, p, a, b) && 1 <= u <= 2 && 1 <= v <= 2
    ensures Next(Cells(n), u, v) == Next(p, u + a, v + b)
  {
    assert Agrees(n, p, a, b, u - 1, v + 1) && Agrees(n, p, a, b, u, v + 1) && Agrees(n, p, a, b, u + 1, v + 1);
    assert Agrees(n, p, a, b, u - 1, v) && Agrees(n, p, a, b, u, v) && Agrees(n, p, a, b, u + 1, v);
    assert Agrees(n, p, a, b, u - 1, v - 1) && Agrees(n, p, a, b, u, v - 1) && Agrees(n, p, a, b, u + 1, v - 1);
    NextLocal(Cells(n), p, u, v, u + a, v + b);
  }

  /** A live level-2 node: the next generation of its centre is one
      generation of p. */
  lemma {:induction false} BaseShows(n: Node, p: Plane, a: int, b: int, c: int, d: int)
    requires n.Valid() && n.Level() == 2 && Shows(n, 4, p, a, b) && c == a + 1 && d == b + 1
    ensures Shows(NextCentre(n), 2, Iter(p, 1), c, d)
  {
    NextCentreIsLifeStep(n);
    var r, q := NextCentre(n), Iter(p, 1);
    forall x, y | 0 <= x < 2 && 0 <= y < 2 ensures Agrees(r, q, c, d, x, y) {
      BaseCell(n, p, a, b, x + 1, y + 1);
    }
  }

  /** Below the largest exponent: nine window results of side s = 2e on
      the grid x0..x4 by y0..y4 of step e, cut to their centres and
      reassembled, show the square of side S = 4e at (x1, y1). */
  lemma {:induction false} PartAssembleShows(rNW: Node, rTC: Node, rNE: Node, rCL: Node, rCC: Node, rCR: Node,
                                             rSW: Node, rBC: Node, rSE: Node, k: nat, e: int, s: int, S: int, l: int, p: Plane,
                                             x0: int, x1: int, x2: int, x3: int, x4: int,
                                             y0: int, y1: int, y2: int, y3: int, y4: int)
    requires rNW.Valid() && rTC.Valid() && rNE.Valid() && rCL.Valid() && rCC.Valid() &&
             rCR.Valid() && rSW.Valid() && rBC.Valid() && rSE.Valid()
    requires rNW.Level() == rTC.Level() == rNE.Level() == rCL.Level() == rCC.Level() ==
             rCR.Level() == rSW.Level() == rBC.Level() == rSE.Level() == k + 1
    requires e == Pow2(k) && s == 2 * e && S == 2 * s
    requires x1 == x0 + e && x2 == x1 + e && x3 == x2 + e && x4 == x3 + e
    requires y1 == y0 + e && y2 == y1 + e && y3 == y2 + e && y4 == y3 + e
    requires Shows(rNW, s, p, x0, y4) && Shows(rTC, s, p, x2, y4) && Shows(rNE, s, p, x4, y4)
    requires Shows(rCL, s, p, x0, y2) && Shows(rCC, s, p, x2, y2) && Shows(rCR, s, p, x4, y2)
    requires Shows(rSW, s, p, x0, y0) && Shows(rBC, s, p, x2, y0) && Shows(rSE, s, p, x4, y0)
    ensures Shows(Assemble(rNW, rTC, rNE, rCL, rCC, rCR, rSW, rBC, rSE, l, false), S, p, x1, y1)
  {
    ShowsMiddle(rNW, rTC, rCL, rCC, k, e, s, p, x0, x1, x2, y2, y3, y4);
    ShowsMiddle(rTC, rNE, rCC, rCR, k, e, s, p, x2, x3, x4, y2, y3, y4);
    ShowsMiddle(rCL, rCC, rSW, rBC, k, e, s, p, x0, x1, x2, y0, y1, y2);
    ShowsMiddle(rCC, rCR, rBC, rSE, k, e, s, p, x2, x3, x4, y0, y1, y2);
    var qNW := Middle(rNW, rTC, rCL, rCC);
    ChildLevels(rNW, k);
    ChildLevels(rTC, k);
    ChildLevels(rCL, k);
    ChildLevels(rCC, k);
    assert Pow2(k + 1) == s;
    ShowsInner(Inner(qNW, Middle(rTC, rNE, rCC, rCR), Middle(rCL, rCC, rSW, rBC), Middle(rCC, rCR, rBC, rSE)),
               s, S, p, x1, x3, y1, y3);
  }

  /** forward is the Life rule: a node of level L >= 2 showing the square
      of side S = 2^L of p at (a, b) gives, for an exponent l <= L - 2, the
      node of level L - 1 showing the middle of that square, at
      (a + 2^(L-2), b + 2^(L-2)), Gens(l) generations later. */
  lemma {:induction false} AdvanceShows(n: Node, level: nat, l: int, p: Plane, S: int, s: int, q: int,
                                        a: int, b: int, c: int, d: int)
    requires n.Valid() && n.Level() == level && Sides(level, S, s, q) && l <= level - 2
    requires c == a + q && d == b + q
    requires Shows(n, S, p, a, b)
    ensures Shows(Advance(n, l), s, Iter(p, Gens(l)), c, d)
    decreases level, 6
  {
    AdvanceCases(n, l);
    if n.Population() == 0 {
      DeadShows(n, level, l, p, S, s, q, a, b, c, d);
    } else if level == 2 {
      BaseShows(n, p, a, b, c, d);
    } else {
      CombineShows(n, level, l, p, S, s, q, a, b, c, d);
    }
  }

  /** The recursive case of forward: the nine windows are advanced first,
      then either cut and reassembled or, at the largest exponent, grouped
      and advanced once more. */
  lemma {:induction false} CombineShows(n: Node, level: nat, l: int, p: Plane, S: int, s: int, q: int,
                                        a: int, b: int, c: int, d: int)
    requires n.Valid() && n.Level() == level >= 3 && Sides(level, S, s, q) && l <= level - 2
    requires c == a + q && d == b + q
    requires Shows(n, S, p, a, b)
    ensures Shows(Combine(n, l), s, Iter(p, Gens(l)), c, d)
    decreases level, 5
  {
    if l == level - 2 {
      CombineFullShows(n, level, l, p, S, s, q, a, b, c, d);
    } else {
      CombinePartShows(n, level, l, p, S, s, q, a, b, c, d);
    }
  }

  /** Combine at the largest exponent: the four groups of window results
      are advanced once more. */
  lemma {:induction false} CombineFullShows(n: Node, level: nat, l: int, p: Plane, S: int, s: int, q: int,
                                        a: int, b: int, c: int, d: int)
    requires n.Valid() && n.Level() == level >= 3 && Sides(level, S, s, q)
    requires c == a + q && d == b + q
    requires Shows(n, S, p, a, b)
    requires l == level - 2
    ensures Shows(Combine(n, l), s, Iter(p, Gens(l)), c, d)
    decreases level, 4
  {
    var k: nat := level - 3;
    var e := Pow2(k);
    assert q == 2 * e && s == 2 * q && S == 2 * s;
    var x0, y0 := a, b;
    var x1, y1 := x0 + e, y0 + e;
    var x2, y2 := x1 + e, y1 + e;
    var x3, y3 := x2 + e, y2 + e;
    var x4, y4 := x3 + e, y3 + e;
    var x5, y5 := x4 + e, y4 + e;
    var lw := k;
    var r := Iter(p, Gens(lw));
    NineWindowsShow(n, level, l, lw, p, S, s, q, e, x0, x1, x2, x3, x4, x5, y0, y1, y2, y3, y4, y5);
    GroupsCombineShows(n, level, l, k, e, q, s, p, x1, x2, x3, x4, x5, y1, y2, y3, y4, y5, c, d);
  }

  /** The nine window results of a node of level L >= 3, advanced
      Gens(L - 3) generations, grouped and advanced once more, show the
      middle of the node's square Gens(L - 2) generations on. */
  lemma {:induction false} GroupsCombineShows(n: Node, level: nat, l: int, k: nat, e: int, q: int, s: int, p: Plane,
                                              x1: int, x2: int, x3: int, x4: int, x5: int,
                                              y1: int, y2: int, y3: int, y4: int, y5: int, c: int, d: int)
    requires n.Valid() && n.Level() == level >= 3 && l == level - 2 && k == level - 3
    requires e == Pow2(k) && q == 2 * e && s == 2 * q
    requires x2 == x1 + e && x3 == x2 + e && x4 == x3 + e && x5 == x4 + e && c == x2
    requires y2 == y1 + e && y3 == y2 + e && y4 == y3 + e && y5 == y4 + e && d == y2
    requires Shows(Advance(WinNW(n), l), q, Iter(p, Gens(k)), x1, y5)
    requires Shows(Advance(WinTC(n), l), q, Iter(p, Gens(k)), x3, y5)
    requires Shows(Advance(WinNE(n), l), q, Iter(p, Gens(k)), x5, y5)
    requires Shows(Advance(WinCL(n), l), q, Iter(p, Gens(k)), x1, y3)
    requires Shows(Advance(WinCC(n), l), q, Iter(p, Gens(k)), x3, y3)
    requires Shows(Advance(WinCR(n), l), q, Iter(p, Gens(k)), x5, y3)
    requires Shows(Advance(WinSW(n), l), q, Iter(p, Gens(k)), x1, y1)
    requires Shows(Advance(WinBC(n), l), q, Iter(p, Gens(k)), x3, y1)
    requires Shows(Advance(WinSE(n), l), q, Iter(p, Gens(k)), x5, y1)
    ensures Shows(Combine(n, l), s, Iter(p, Gens(l)), c, d)
    decreases level, 3
  {
    var r := Iter(p, Gens(k));
    var rNW, rTC, rNE, rCL, rCC, rCR, rSW, rBC, rSE := Advance(WinNW(n), l), Advance(WinTC(n), l), Advance(WinNE(n), l),
      Advance(WinCL(n), l), Advance(WinCC(n), l), Advance(WinCR(n), l), Advance(WinSW(n), l), Advance(WinBC(n), l), Advance(WinSE(n), l);
    FullShows(rNW, rTC, rNE, rCL, rCC, rCR, rSW, rBC, rSE, level, l, k, e, q, s, r, x1, x2, x3, x4, x5, y1, y2, y3, y4, y5);
    CombineUnfold(n, l);
    FullGens(p, l, k);
    ShowsSame(Assemble(rNW, rTC, rNE, rCL, rCC, rCR, rSW, rBC, rSE, l, true), Combine(n, l), s,
              Iter(r, Gens(k)), Iter(p, Gens(l)), x2, c, y2, d);
  }

  /** Combine below the largest exponent: the window results are cut and
      reassembled. */
  lemma {:induction false} CombinePartShows(n: Node, level: nat, l: int, p: Plane, S: int, s: int, q: int,
                                        a: int, b: int, c: int, d: int)
    requires n.Valid() && n.Level() == level >= 3 && Sides(level, S, s, q)
    requires c == a + q && d == b + q
    requires Shows(n, S, p, a, b)
    requires l < level - 2
    ensures Shows(Combine(n, l), s, Iter(p, Gens(l)), c, d)
    decreases level, 4
  {
    var k: nat := level - 3;
    var e := Pow2(k);
    assert q == 2 * e && s == 2 * q && S == 2 * s;
    var x0, y0 := a, b;
    var x1, y1 := x0 + e, y0 + e;
    var x2, y2 := x1 + e, y1 + e;
    var x3, y3 := x2 + e, y2 + e;
    var x4, y4 := x3 + e, y3 + e;
    var x5, y5 := x4 + e, y4 + e;
    var lw := l;
    var r := Iter(p, Gens(lw));
    var rNW, rTC, rNE, rCL, rCC, rCR, rSW, rBC, rSE := Advance(WinNW(n), l), Advance(WinTC(n), l), Advance(WinNE(n), l),
      Advance(WinCL(n), l), Advance(WinCC(n), l), Advance(WinCR(n), l), Advance(WinSW(n), l), Advance(WinBC(n), l), Advance(WinSE(n), l);
    NineWindowsShow(n, level, l, lw, p, S, s, q, e, x0, x1, x2, x3, x4, x5, y0, y1, y2, y3, y4, y5);
    PartAssembleShows(rNW, rTC, rNE, rCL, rCC, rCR, rSW, rBC, rSE, k, e, q, s, l, r, x1, x2, x3, x4, x5, y1, y2, y3, y4, y5);
    CombineUnfold(n, l);
    ShowsSame(Assemble(rNW, rTC, rNE, rCL, rCC, rCR, rSW, rBC, rSE, l, false), Combine(n, l), s,
              r, Iter(p, Gens(l)), x2, c, y2, d);
  }

  /** Combine unfolded once: the nine window results and the flag that
      says whether the exponent is the largest one. */
  lemma CombineUnfold(n: Node, l: int)
    requires n.Valid() && n.Level() >= 3
    ensures Combine(n, l) == Assemble(Advance(WinNW(n), l), Advance(WinTC(n), l), Advance(WinNE(n), l),
                                      Advance(WinCL(n), l), Advance(WinCC(n), l), Advance(WinCR(n), l),
                                      Advance(WinSW(n), l), Advance(WinBC(n), l), Advance(WinSE(n), l),
                                      l, l == n.Level() - 2)
  {
  }

  /** Two runs of Gens(k) generations make Gens(k + 1). */
  lemma FullGens(p: Plane, l: int, k: nat)
    requires l == k + 1
    ensures Iter(Iter(p, Gens(k)), Gens(k)) == Iter(p, Gens(l))
  {
    IterAdd(p, Gens(k), Gens(k));
    assert Gens(l) == Gens(k) + Gens(k);
  }

  /** The nine windows of a node of level L >= 3 showing the square of
      side S at (x0, y0), each advanced with exponent l clamped to lw, show
      the middles of their squares Gens(lw) generations later. */
  lemma {:induction false} NineWindowsShow(n: Node, level: nat, l: int, lw: int, p: Plane, S: int, s: int, q: int, e: int,
                                           x0: int, x1: int, x2: int, x3: int, x4: int, x5: int,
                                           y0: int, y1: int, y2: int, y3: int, y4: int, y5: int)
    requires n.Valid() && n.Level() == level >= 3 && Sides(level, S, s, q) && e == Pow2(level - 3)
    requires lw == (if l > level - 3 then level - 3 else l)
    requires x1 == x0 + e && x2 == x1 + e && x3 == x2 + e && x4 == x3 + e && x5 == x4 + e
    requires y1 == y0 + e && y2 == y1 + e && y3 == y2 + e && y4 == y3 + e && y5 == y4 + e
    requires Shows(n, S, p, x0, y0)
    ensures Shows(Advance(WinNW(n), l), q, Iter(p, Gens(lw)), x1, y5)
    ensures Shows(Advance(WinTC(n), l), q, Iter(p, Gens(lw)), x3, y5)
    ensures Shows(Advance(WinNE(n), l), q, Iter(p, Gens(lw)), x5, y5)
    ensures Shows(Advance(WinCL(n), l), q, Iter(p, Gens(lw)), x1, y3)
    ensures Shows(Advance(WinCC(n), l), q, Iter(p, Gens(lw)), x3, y3)
    ensures Shows(Advance(WinCR(n), l), q, Iter(p, Gens(lw)), x5, y3)
    ensures Shows(Advance(WinSW(n), l), q, Iter(p, Gens(lw)), x1, y1)
    ensures Shows(Advance(WinBC(n), l), q, Iter(p, Gens(lw)), x3, y1)
    ensures Shows(Advance(WinSE(n), l), q, Iter(p, Gens(lw)), x5, y1)
    decreases level, 2
  {
    var k: nat := level - 3;
    assert q == 2 * e && s == 2 * q && S == 2 * s;
    ShowsWindows(n, k + 1, q, s, S, p, x0, x2, x4, y0, y2, y4);
    assert Sides(level - 1, s, q, e);
    WindowRowShows(WinNW(n), WinTC(n), WinNE(n), level - 1, l, lw, p, s, q, e, x0, x1, x2, x3, x4, x5, y4, y5);
    WindowRowShows(WinCL(n), WinCC(n), WinCR(n), level - 1, l, lw, p, s, q, e, x0, x1, x2, x3, x4, x5, y2, y3);
    WindowRowShows(WinSW(n), WinBC(n), WinSE(n), level - 1, l, lw, p, s, q, e, x0, x1, x2, x3, x4, x5, y0, y1);
  }

  /** A node of level L showing a square of side S: forward with any
      exponent l, which it clamps to lw, shows the middle of the square
      Gens(lw) generations later. */
  lemma {:induction false} ClampedShows(n: Node, level: nat, l: int, lw: int, p: Plane, S: int, s: int, q: int,
                                        a: int, b: int, c: int, d: int)
    requires n.Valid() && n.Level() == level && Sides(level, S, s, q)
    requires lw == (if l > level - 2 then level - 2 else l) && c == a + q && d == b + q
    requires Shows(n, S, p, a, b)
    ensures Shows(Advance(n, l), s, Iter(p, Gens(lw)), c, d)
    decreases level + 1, 0
  {
    AdvanceClamp(n, l);
    assert Clamp(n.Level(), Some(l)) == lw;
    AdvanceShows(n, level, lw, p, S, s, q, a, b, c, d);
  }

  /** One row of three windows of level L, side S and 2q apart, advanced
      with exponent l clamped to lw: each shows the middle of its square. */
  lemma {:induction false} WindowRowShows(w0: Node, w1: Node, w2: Node, level: nat, l: int, lw: int, p: Plane,
                                          S: int, s: int, q: int,
                                          x0: int, x1: int, x2: int, x3: int, x4: int, x5: int, y0: int, y1: int)
    requires w0.Valid() && w1.Valid() && w2.Valid() && w0.Level() == level && w1.Level() == level && w2.Level() == level
    requires Sides(level, S, s, q) && lw == (if l > level - 2 then level - 2 else l)
    requires x1 == x0 + q && x2 == x1 + q && x3 == x2 + q && x4 == x3 + q && x5 == x4 + q && y1 == y0 + q
    requires Shows(w0, S, p, x0, y0) && Shows(w1, S, p, x2, y0) && Shows(w2, S, p, x4, y0)
    ensures Shows(Advance(w0, l), s, Iter(p, Gens(lw)), x1, y1)
    ensures Shows(Advance(w1, l), s, Iter(p, Gens(lw)), x3, y1)
    ensures Shows(Advance(w2, l), s, Iter(p, Gens(lw)), x5, y1)
    decreases level + 1, 1
  {
    ClampedShows(w0, level, l, lw, p, S, s, q, x0, y0, x1, y1);
    ClampedShows(w1, level, l, lw, p, S, s, q, x2, y0, x3, y1);
    ClampedShows(w2, level, l, lw, p, S, s, q, x4, y0, x5, y1);
  }

  /** The largest exponent: the four groups of window results, each of
      side S = 4e and advanced Gens(L - 3) generations once more, show the
      middle square of side S at (x1, y1) that many generations later. */
  lemma {:induction false} FullShows(rNW: Node, rTC: Node, rNE: Node, rCL: Node, rCC: Node, rCR: Node,
                                     rSW: Node, rBC: Node, rSE: Node, level: nat, l: int, k: nat, e: int, s: int, S: int, p: Plane,
                                     x0: int, x1: int, x2: int, x3: int, x4: int,
                                     y0: int, y1: int, y2: int, y3: int, y4: int)
    requires level >= 3 && l == level - 2 && k == level - 3 && e == Pow2(k) && s == 2 * e && S == 2 * s
    requires rNW.Valid() && rTC.Valid() && rNE.Valid() && rCL.Valid() && rCC.Valid() &&
             rCR.Valid() && rSW.Valid() && rBC.Valid() && rSE.Valid()
    requires rNW.Level() == rTC.Level() == rNE.Level() == rCL.Level() == rCC.Level() ==
             rCR.Level() == rSW.Level() == rBC.Level() == rSE.Level() == k + 1
    requires x1 == x0 + e && x2 == x1 + e && x3 == x2 + e && x4 == x3 + e
    requires y1 == y0 + e && y2 == y1 + e && y3 == y2 + e && y4 == y3 + e
    requires Shows(rNW, s, p, x0, y4) && Shows(rTC, s, p, x2, y4) && Shows(rNE, s, p, x4, y4)
    requires Shows(rCL, s, p, x0, y2) && Shows(rCC, s, p, x2, y2) && Shows(rCR, s, p, x4, y2)
    requires Shows(rSW, s, p, x0, y0) && Shows(rBC, s, p, x2, y0) && Shows(rSE, s, p, x4, y0)
    ensures Shows(Assemble(rNW, rTC, rNE, rCL, rCC, rCR, rSW, rBC, rSE, l, true), S, Iter(p, Gens(k)), x1, y1)
    decreases level, 2
  {
    var gNW, gNE, gSW, gSE := Inner(rNW, rTC, rCL, rCC), Inner(rTC, rNE, rCC, rCR), Inner(rCL, rCC, rSW, rBC), Inner(rCC, rCR, rBC, rSE);
    assert Pow2(k + 1) == s;
    ShowsInner(gNW, s, S, p, x0, x2, y2, y4);
    ShowsInner(gNE, s, S, p, x2, x4, y2, y4);
    ShowsInner(gSW, s, S, p, x0, x2, y0, y2);
    ShowsInner(gSE, s, S, p, x2, x4, y0, y2);
    assert Assemble(rNW, rTC, rNE, rCL, rCC, rCR, rSW, rBC, rSE, l, true) ==
      Inner(Advance(gNW, l), Advance(gNE, l), Advance(gSW, l), Advance(gSE, l));
    GroupsAdvanceShow(gNW, gNE, gSW, gSE, level, l, k, e, s, S, p, x0, x1, x2, x3, x4, y0, y1, y2, y3, y4);
  }

  /** The four groups of side S = 4e on the grid x0..x4 by y0..y4 of step
      e, each advanced with the largest exponent and put together, show
      the square of side S at (x1, y1). */
  lemma {:induction false} GroupsAdvanceShow(gNW: Node, gNE: Node, gSW: Node, gSE: Node, level: nat, l: int, k: nat,
                                             e: int, s: int, S: int, p: Plane,
                                             x0: int, x1: int, x2: int, x3: int, x4: int,
                                             y0: int, y1: int, y2: int, y3: int, y4: int)
    requires level >= 3 && l == level - 2 && k == level - 3 && e == Pow2(k) && s == 2 * e && S == 2 * s
    requires gNW.Valid() && gNE.Valid() && gSW.Valid() && gSE.Valid()
    requires gNW.Level() == gNE.Level() == gSW.Level() == gSE.Level() == k + 2
    requires x1 == x0 + e && x2 == x1 + e && x3 == x2 + e && x4 == x3 + e
    requires y1 == y0 + e && y2 == y1 + e && y3 == y2 + e && y4 == y3 + e
    requires Shows(gNW, S, p, x0, y2) && Shows(gNE, S, p, x2, y2) && Shows(gSW, S, p, x0, y0) && Shows(gSE, S, p, x2, y0)
    ensures Shows(Inner(Advance(gNW, l), Advance(gNE, l), Advance(gSW, l), Advance(gSE, l)), S, Iter(p, Gens(k)), x1, y1)
    decreases level, 1
  {
    assert Sides(level - 1, S, s, e);
    ClampedShows(gNW, level - 1, l, k, p, S, s, e, x0, y2, x1, y3);
    ClampedShows(gNE, level - 1, l, k, p, S, s, e, x2, y2, x3, y3);
    ClampedShows(gSW, level - 1, l, k, p, S, s, e, x0, y0, x1, y1);
    ClampedShows(gSE, level - 1, l, k, p, S, s, e, x2, y0, x3, y1);
    ShowsInner(Inner(Advance(gNW, l), Advance(gNE, l), Advance(gSW, l), Advance(gSE, l)), s, S, Iter(p, Gens(k)), x1, x3, y1, y3);
  }

  /** Shows depends only on the values of its arguments. */
  lemma ShowsSame(n: Node, n': Node, s: int, p: Plane, p': Plane, a: int, a': int, b: int, b': int)
    requires n == n' && p == p' && a == a' && b == b' && Shows(n, s, p, a, b)
    ensures Shows(n', s, p', a', b')
  {
  }
}
