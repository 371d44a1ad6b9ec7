/** Two discrepancies between what rounds (hashlife.py) evidently intends,
    the world moved on n generations, and what its code does, each shown on
    a concrete root. The corrected definitions, and the proof that they do
    move the world on n generations, are BandFixed with
    WorldLife.BandFixedIff, and RoundStepFixed with
    HashLife.RoundsFixedWorld. */
module RoundsFindings {
  import opened Counting
  import opened Life
  import opened Quadtree
  import opened Forward
  import opened Universe
  import opened ForwardLife
  import opened WorldLife
  import opened HashLife

  /** A dead level-1 node. */
  function Dead1(): Node
  {
    Inner(Cell(false), Cell(false), Cell(false), Cell(false))
  }

  /** A dead level-2 node. */
  function Dead2(): Node
  {
    Inner(Dead1(), Dead1(), Dead1(), Dead1())
  }

  /** A level-2 root whose only live cell is its north-east corner, world
      cell (1, 1). */
  function CornerRoot(): Node
  {
    Inner(Dead1(), Inner(Cell(false), Cell(true), Cell(false), Cell(false)), Dead1(), Dead1())
  }

  /** peripheral_band lists the nw.ne grandchild twice and never ne.ne: the
      band check passes for CornerRoot although its world has a live cell
      outside the middle half [-1, 1) x [-1, 1); the corrected band sees
      that cell. */
  lemma BandMissesCorner()
    ensures CornerRoot().Valid() && CornerRoot().Level() == 2
    ensures AllEmpty(Band(CornerRoot()))
    ensures World(CornerRoot())(1, 1)
    ensures !DeadOutside(World(CornerRoot()), -1, 1, -1, 1)
    ensures !AllEmpty(BandFixed(CornerRoot()))
  {
    var r := CornerRoot();
    assert WorldAt(r, 1, 1) == r.At(3, 3);
    assert World(r)(1, 1);
    assert BandFixed(r)[3].Population() == 1;
  }

  /** A level-3 root holding a horizontal blinker at world cells (-1, 1),
      (0, 1) and (1, 1): well inside the middle half of the root, so both
      bands are empty. */
  function BlinkerRoot(): Node
  {
    Inner(Inner(Dead1(), Dead1(), Dead1(), Inner(Cell(false), Cell(true), Cell(false), Cell(false))),
          Inner(Dead1(), Dead1(), Inner(Cell(true), Cell(true), Cell(false), Cell(false)), Dead1()),
          Dead2(), Dead2())
  }

  /** The cells around (0, 2) of a plane holding a horizontal blinker at
      (-1, 1), (0, 1), (1, 1): the blinker live, the two rows above dead. */
  ghost predicate BlinkerBelow(p: Plane)
  {
    p(-1, 1) && p(0, 1) && p(1, 1) &&
    !p(-1, 2) && !p(0, 2) && !p(1, 2) &&
    !p(-1, 3) && !p(0, 3) && !p(1, 3)
  }

  /** BlinkerRoot is padded for exponent 2 with either band. */
  lemma BlinkerRootPadded()
    ensures BlinkerRoot().Valid() && BlinkerRoot().Level() == 3
    ensures AllEmpty(Band(BlinkerRoot())) && AllEmpty(BandFixed(BlinkerRoot()))
  {
    var b, c := Band(BlinkerRoot()), BandFixed(BlinkerRoot());
    assert forall i | 0 <= i < 12 :: b[i] == Dead1() && c[i] == Dead1();
  }

  /** BlinkerRoot holds the blinker. */
  lemma BlinkerRootWorld()
    ensures BlinkerBelow(World(BlinkerRoot()))
  {
    var r := BlinkerRoot();
    var p := World(r);
    assert p(-1, 1) == r.At(3, 5) && p(0, 1) == r.At(4, 5) && p(1, 1) == r.At(5, 5);
    assert p(-1, 2) == r.At(3, 6) && p(0, 2) == r.At(4, 6) && p(1, 2) == r.At(5, 6);
    assert p(-1, 3) == r.At(3, 7) && p(0, 3) == r.At(4, 7) && p(1, 3) == r.At(5, 7);
  }

  /** Next to a blinker, cell (0, 2) is born: it is dead and has three
      live neighbours. */
  lemma BlinkerBirth(p: Plane)
    requires BlinkerBelow(p)
    ensures Iter(p, 1)(0, 2)
  {
    assert Neighbours(p, 0, 2) == 3;
    assert Iter(p, 1)(0, 2) == Next(p, 0, 2);
  }

  /** rounds(1) as written loses a live cell: a level-3 root holding the
      blinker and padded for exponent 2, BlinkerRoot for one, is forwarded
      as it is, to a level-2 root covering only [-2, 2) x [-2, 2); one
      generation on, the blinker stands vertical at x = 0, y in {0, 1, 2},
      and cell (0, 2) falls outside. The corrected step keeps it. */
  lemma RoundLosesCell(r: Node)
    requires r.Valid() && r.Level() == 3 && AllEmpty(Band(r)) && BlinkerBelow(World(r))
    ensures Iter(World(r), 1)(0, 2)
    ensures !World(RoundStep(r, 0))(0, 2)
    ensures World(RoundStepFixed(r, 0))(0, 2)
  {
    BlinkerBirth(World(r));
    RoundAsWrittenAt(r, 0, 2);
    OneStepFixedAt(r, 0, 2);
  }

  /** The concrete witness: BlinkerRoot itself is such a root, so rounds(1)
      as written loses cell (0, 2) of the blinker. */
  lemma BlinkerLosesCell()
    ensures BlinkerRoot().Valid()
    ensures Iter(World(BlinkerRoot()), 1)(0, 2)
    ensures !World(RoundStep(BlinkerRoot(), 0))(0, 2)
    ensures World(RoundStepFixed(BlinkerRoot(), 0))(0, 2)
  {
    BlinkerRootPadded();
    BlinkerRootWorld();
    RoundLosesCell(BlinkerRoot());
  }

  /** round() as written on a level-3 root padded for exponent 2 keeps only
      the cells of [-2, 2) x [-2, 2). */
  lemma RoundAsWrittenAt(r: Node, x: int, y: int)
    requires r.Valid() && r.Level() == 3 && AllEmpty(Band(r))
    requires !(-2 <= x < 2 && -2 <= y < 2)
    ensures !World(RoundStep(r, 0))(x, y)
  {
    assert Padded(r, 2);
    RoundStepIsPadThenAdvance(r, 0);
    var s := RoundStep(r, 0);
    assert s.Level() == 2;
    AtOutside(s, x + 2, y + 2);
    assert World(s)(x, y) == s.At(x + 2, y + 2);
  }

  /** The corrected round(), read at one cell. */
  lemma OneStepFixedAt(r: Node, x: int, y: int)
    requires r.Valid()
    ensures World(RoundStepFixed(r, 0))(x, y) == Iter(World(r), 1)(x, y)
  {
    RoundStepFixedWorld(r, 0);
    assert Pow2(0) == 1;
    SameAt(World(RoundStepFixed(r, 0)), Iter(World(r), 1), x, y);
  }
}
