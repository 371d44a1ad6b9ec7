/** rounds measured against the Life rule, in world coordinates.

    The world a root stands for is the plane World(root). forward on a
    root whose live cells lie in the middle half of the square its result
    covers is exactly the Life rule on that world; the band check of
    extend is meant to establish that placement. As written it does not,
    for two reasons, each exhibited here on a concrete root beside the
    corrected definition and its proof. */
module WorldLife {
  import opened Counting
  import opened Life
  import opened Quadtree
  import opened Forward
  import opened Universe
  import opened ForwardLife

  /** A root of level L >= 1 shows its world on the square of side 2^L
      whose south-west corner is (-Offset(L), -Offset(L)). */
  lemma RootShows(r: Node, level: nat, S: int, a: int)
    requires r.Valid() && r.Level() == level >= 1 && S == Pow2(level) && a == -(Offset(level) as int)
    ensures Shows(r, S, World(r), a, a)
  {
    forall x, y | 0 <= x < S && 0 <= y < S ensures Agrees(r, World(r), a, a, x, y) {
      assert World(r)(x + a, y + a) == WorldAt(r, x + a, y + a);
    }
  }

  /** A root's world is dead outside the square the root covers. */
  lemma RootDeadOutside(r: Node, level: nat, a: int)
    requires r.Valid() && r.Level() == level >= 1 && a == Offset(level)
    ensures DeadOutside(World(r), -a, a, -a, a)
  {
    forall x, y | !(-a <= x < a && -a <= y < a) ensures !World(r)(x, y) {
      AtOutside(r, x + a, y + a);
    }
  }

  /** Inside the square forward's result covers, its world is the world
      of the root Gens(l) generations later. */
  lemma AdvanceWorldInside(e: Node, level: nat, l: int, x: int, y: int)
    requires e.Valid() && e.Level() == level >= 2 && l <= level - 2
    requires -(Pow2(level - 2) as int) <= x < Pow2(level - 2) && -(Pow2(level - 2) as int) <= y < Pow2(level - 2)
    ensures WorldAt(Advance(e, l), x, y) == Iter(World(e), Gens(l))(x, y)
  {
    var S: int, s: int, q: int := Pow2(level), Pow2(level - 1), Pow2(level - 2);
    var a := -s;
    var c := a + q;
    RootShows(e, level, S, a);
    AdvanceShows(e, level, l, World(e), S, s, q, a, a, c, c);
    ShowsWorld(Advance(e, l), level - 1, s, q, Iter(World(e), Gens(l)), c, x, y);
  }

  /** A root of level L >= 1 that shows a plane p on its own square shows
      p as its world there. */
  lemma ShowsWorld(n: Node, level: nat, s: int, q: int, p: Plane, c: int, x: int, y: int)
    requires n.Valid() && n.Level() == level >= 1 && s == Pow2(level) && q == Pow2(level - 1) && c == -q
    requires Shows(n, s, p, c, c) && -q <= x < q && -q <= y < q
    ensures WorldAt(n, x, y) == p(x, y)
  {
    var u, v := x + q, y + q;
    assert WorldAt(n, x, y) == n.At(u, v);
    assert Agrees(n, p, c, c, u, v);
    SamePoint(p, u + c, v + c, x, y);
  }

  lemma SamePoint(p: Plane, x: int, y: int, x': int, y': int)
    requires x == x' && y == y'
    ensures p(x, y) == p(x', y')
  {
  }

  /** Outside that square, forward's result stands for dead cells. */
  lemma AdvanceWorldOutside(e: Node, level: nat, l: int, x: int, y: int)
    requires e.Valid() && e.Level() == level >= 2 && l <= level - 2
    requires !(-(Pow2(level - 2) as int) <= x < Pow2(level - 2) && -(Pow2(level - 2) as int) <= y < Pow2(level - 2))
    ensures !WorldAt(Advance(e, l), x, y)
  {
    var q: int := Pow2(level - 2);
    AtOutside(Advance(e, l), x + q, y + q);
  }

  /** forward is the Life rule on the whole world: a root of level L >= 3
      whose live cells lie within 2^(L-3) of the origin, advanced with
      exponent l <= L - 3, stands for its world Gens(l) generations later. */
  lemma AdvanceWorld(e: Node, level: nat, l: int, w: int)
    requires e.Valid() && e.Level() == level >= 3 && l <= level - 3 && w == Pow2(level - 3)
    requires DeadOutside(World(e), -w, w, -w, w)
    ensures Same(World(Advance(e, l)), Iter(World(e), Gens(l)))
  {
    var q: int, t := Pow2(level - 2), Gens(l);
    if l > 0 {
      Pow2Mono(l, level - 3);
    }
    assert t <= w && q == 2 * w;
    IterDeadOutside(World(e), t, -w, w, -w, w);
    forall x, y ensures AgreeAt(World(Advance(e, l)), Iter(World(e), t), x, y) {
      if -q <= x < q && -q <= y < q {
        AdvanceWorldInside(e, level, l, x, y);
      } else {
        AdvanceWorldOutside(e, level, l, x, y);
      }
    }
  }

  /** A node showing a square: it is empty exactly when the square is
      dead. */
  lemma ShowsPopulation(g: Node, k: nat, h: int, p: Plane, a: int, a': int, b: int, b': int)
    requires g.Valid() && g.Level() == k && h == Pow2(k) && a' == a + h && b' == b + h
    requires Shows(g, h, p, a, b)
    ensures g.Population() == 0 <==> DeadOn(p, a, a', b, b')
  {
    PopulationZeroIffDead(g);
    if g.Population() == 0 {
      forall x, y | a <= x < a' && b <= y < b' ensures !p(x, y) {
        assert Agrees(g, p, a, b, x - a, y - b);
      }
    } else {
      var x, y :| g.At(x, y);
      if !(0 <= x < h && 0 <= y < h) {
        AtOutside(g, x, y);
      }
      assert Agrees(g, p, a, b, x, y);
      assert p(x + a, y + b);
    }
  }

  /** The twelve squares of side q on the border of the square of side 4q
      at (x0, x0), the grid lines being x0 .. x4. */
  ghost predicate RingDead(p: Plane, x0: int, x1: int, x2: int, x3: int, x4: int)
  {
    DeadOn(p, x0, x1, x3, x4) && DeadOn(p, x1, x2, x3, x4) && DeadOn(p, x2, x3, x3, x4) && DeadOn(p, x3, x4, x3, x4) &&
    DeadOn(p, x3, x4, x2, x3) && DeadOn(p, x3, x4, x1, x2) && DeadOn(p, x3, x4, x0, x1) && DeadOn(p, x2, x3, x0, x1) &&
    DeadOn(p, x1, x2, x0, x1) && DeadOn(p, x0, x1, x0, x1) && DeadOn(p, x0, x1, x1, x2) && DeadOn(p, x0, x1, x2, x3)
  }

  /** A plane dead outside a square is dead outside its middle half exactly
      when the twelve border squares are dead. */
  lemma RingDeadIff(p: Plane, q: int, x0: int, x1: int, x2: int, x3: int, x4: int)
    requires q >= 1 && x1 == x0 + q && x2 == x1 + q && x3 == x2 + q && x4 == x3 + q
    requires DeadOutside(p, x0, x4, x0, x4)
    ensures RingDead(p, x0, x1, x2, x3, x4) <==> DeadOutside(p, x1, x3, x1, x3)
  {
    if RingDead(p, x0, x1, x2, x3, x4) {
      forall x, y | !(x1 <= x < x3 && x1 <= y < x3) ensures !p(x, y) {
        if x0 <= x < x4 && x0 <= y < x4 {
          RingCover(p, x0, x1, x2, x3, x4, x, y);
        }
      }
    }
  }

  /** A point of the big square outside the middle half lies in one of the
      twelve border squares. */
  lemma RingCover(p: Plane, x0: int, x1: int, x2: int, x3: int, x4: int, x: int, y: int)
    requires x0 <= x1 <= x2 <= x3 <= x4 && RingDead(p, x0, x1, x2, x3, x4)
    requires x0 <= x < x4 && x0 <= y < x4 && !(x1 <= x < x3 && x1 <= y < x3)
    ensures !p(x, y)
  {
  }

  /** A plane dead outside a box is dead outside the same box however its
      bounds are spelled. */
  lemma DeadOutsideSame(p: Plane, x0: int, x1: int, x0': int, x1': int)
    requires x0 == x0' && x1 == x1' && DeadOutside(p, x0, x1, x0, x1)
    ensures DeadOutside(p, x0', x1', x0', x1')
  {
  }

  /** A node of level k + 1 showing a square of side 2q = 2^(k+1): each
      quadrant is empty exactly when its square is dead. */
  lemma QuadPopulations(g: Node, k: nat, q: int, p: Plane, x0: int, x1: int, x2: int, y0: int, y1: int, y2: int)
    requires g.Valid() && g.Level() == k + 1 && q == Pow2(k)
    requires x1 == x0 + q && x2 == x1 + q && y1 == y0 + q && y2 == y1 + q
    requires Shows(g, 2 * q, p, x0, y0)
    ensures g.nw.Population() == 0 <==> DeadOn(p, x0, x1, y1, y2)
    ensures g.ne.Population() == 0 <==> DeadOn(p, x1, x2, y1, y2)
    ensures g.sw.Population() == 0 <==> DeadOn(p, x0, x1, y0, y1)
    ensures g.se.Population() == 0 <==> DeadOn(p, x1, x2, y0, y1)
  {
    ShowsQuadrants(g, q, 2 * q, p, x0, x1, y0, y1);
    ShowsPopulation(g.nw, k, q, p, x0, x1, y1, y2);
    ShowsPopulation(g.ne, k, q, p, x1, x2, y1, y2);
    ShowsPopulation(g.sw, k, q, p, x0, x1, y0, y1);
    ShowsPopulation(g.se, k, q, p, x1, x2, y0, y1);
  }

  /** The corrected band is empty exactly when its twelve grandchildren's
      squares are dead. */
  lemma BandFixedRing(r: Node, k: nat, q: int, p: Plane, a0: int, a1: int, a2: int, a3: int, a4: int)
    requires r.Valid() && r.Level() == k + 2 && q == Pow2(k)
    requires a1 == a0 + q && a2 == a1 + q && a3 == a2 + q && a4 == a3 + q
    requires Shows(r.nw, 2 * q, p, a0, a2) && Shows(r.ne, 2 * q, p, a2, a2)
    requires Shows(r.sw, 2 * q, p, a0, a0) && Shows(r.se, 2 * q, p, a2, a0)
    ensures AllEmpty(BandFixed(r)) <==> RingDead(p, a0, a1, a2, a3, a4)
  {
    assert r.nw.Level() == k + 1 && r.ne.Level() == k + 1 && r.sw.Level() == k + 1 && r.se.Level() == k + 1;
    QuadPopulations(r.nw, k, q, p, a0, a1, a2, a2, a3, a4);
    QuadPopulations(r.ne, k, q, p, a2, a3, a4, a2, a3, a4);
    QuadPopulations(r.sw, k, q, p, a0, a1, a2, a0, a1, a2);
    QuadPopulations(r.se, k, q, p, a2, a3, a4, a0, a1, a2);
    var b := BandFixed(r);
    AllEmptyTwelve(b);
    assert b[0] == r.nw.nw && b[1] == r.nw.ne && b[2] == r.ne.nw && b[3] == r.ne.ne;
    assert b[4] == r.ne.se && b[5] == r.se.ne && b[6] == r.se.se && b[7] == r.se.sw;
    assert b[8] == r.sw.se && b[9] == r.sw.sw && b[10] == r.sw.nw && b[11] == r.nw.sw;
  }

  lemma AllEmptyTwelve(b: seq<Node>)
    requires |b| == 12
    ensures AllEmpty(b) <==>
      b[0].Population() == 0 && b[1].Population() == 0 && b[2].Population() == 0 && b[3].Population() == 0 &&
      b[4].Population() == 0 && b[5].Population() == 0 && b[6].Population() == 0 && b[7].Population() == 0 &&
      b[8].Population() == 0 && b[9].Population() == 0 && b[10].Population() == 0 && b[11].Population() == 0
  {
  }

  /** The band check as evidently intended: a root of level L >= 2 has an
      empty corrected band exactly when its world is dead outside the
      square of side 2^(L-1) centred on the origin, the square whose
      contents forward keeps. */
  lemma BandFixedIff(r: Node, level: nat, q: int)
    requires r.Valid() && r.Level() == level >= 2 && q == Pow2(level - 2)
    ensures AllEmpty(BandFixed(r)) <==> DeadOutside(World(r), -q, q, -q, q)
  {
    var p := World(r);
    var t: int := Offset(level);
    var a1: int := -q;
    var a0, a2, a3 := a1 - q, a1 + q, q;
    var a4 := a3 + q;
    assert t == 2 * q && a0 == -t && a4 == t;
    RootShows(r, level, 4 * q, a0);
    ShowsQuadrants(r, 2 * q, 4 * q, p, a0, a2, a0, a2);
    BandFixedRing(r, level - 2, q, p, a0, a1, a2, a3, a4);
    RootDeadOutside(r, level, t);
    DeadOutsideSame(p, -t, t, a0, a4);
    RingDeadIff(p, q, a0, a1, a2, a3, a4);
  }

  /** Agreeing on every cell is transitive. */
  lemma SameTrans(p: Plane, q: Plane, o: Plane)
    requires Same(p, q) && Same(q, o)
    ensures Same(p, o)
  {
    forall x, y ensures AgreeAt(p, o, x, y) {
      assert AgreeAt(p, q, x, y) && AgreeAt(q, o, x, y);
    }
  }

  /** Planes that agree on every cell have the same live cells. */
  lemma SameDeadOutside(p: Plane, q: Plane, x0: int, x1: int, y0: int, y1: int)
    requires Same(p, q) && DeadOutside(q, x0, x1, y0, y1)
    ensures DeadOutside(p, x0, x1, y0, y1)
  {
    forall x, y | !(x0 <= x < x1 && y0 <= y < y1) ensures !p(x, y) {
      assert AgreeAt(p, q, x, y);
    }
  }

  /** Extending a root leaves its world unchanged. */
  lemma ExtendSame(r: Node)
    requires r.Valid()
    ensures Same(World(r.Extend()), World(r))
  {
    forall x, y ensures AgreeAt(World(r.Extend()), World(r), x, y) {
      ExtendWorld(r, x, y);
    }
  }

  /** Padding a root with the corrected band leaves its world unchanged. */
  lemma ExtendUntilFixedSame(r: Node, k: int)
    requires r.Valid()
    ensures Same(World(ExtendUntilFixed(r, k)), World(r))
  {
    forall x, y ensures AgreeAt(World(ExtendUntilFixed(r, k)), World(r), x, y) {
      ExtendUntilFixedWorld(r, k, x, y);
    }
  }

  /** Padding a root as written leaves its world unchanged. */
  lemma ExtendUntilSame(r: Node, k: int)
    requires r.Valid()
    ensures Same(World(ExtendUntil(r, k)), World(r))
  {
    forall x, y ensures AgreeAt(World(ExtendUntil(r, k)), World(r), x, y) {
      ExtendUntilWorld(r, k, x, y);
    }
  }

  /** A plane that agrees with t generations of one plane agrees with t
      generations of any plane agreeing with that one. */
  lemma SameIterTransfer(a: Plane, p: Plane, q: Plane, t: nat)
    requires Same(a, Iter(p, t)) && Same(p, q)
    ensures Same(a, Iter(q, t))
  {
    IterSame(p, q, t);
    SameTrans(a, Iter(p, t), Iter(q, t));
  }

  /** u generations of a plane that agrees with t generations of p agree
      with t + u generations of p. */
  lemma SameIterCompose(a: Plane, b: Plane, p: Plane, t: nat, u: nat)
    requires Same(a, Iter(b, u)) && Same(b, Iter(p, t))
    ensures Same(a, Iter(p, t + u))
  {
    SameIterTransfer(a, b, Iter(p, t), u);
    IterAdd(p, t, u);
  }

  /** Planes that agree on every cell agree on a given one. */
  lemma SameAt(p: Plane, q: Plane, x: int, y: int)
    requires Same(p, q)
    ensures p(x, y) == q(x, y)
  {
    assert AgreeAt(p, q, x, y);
  }

  /** A plane equal to one that is u generations on from b, where b is t
      generations on from p, is t + u generations on from p. */
  lemma SameIterStep(a: Plane, a': Plane, b: Plane, p: Plane, t: nat, u: nat, w: nat)
    requires a == a' && Same(a', Iter(b, u)) && Same(b, Iter(p, t)) && w == t + u
    ensures Same(a, Iter(p, w))
  {
    SameIterCompose(a', b, p, t, u);
  }
}
