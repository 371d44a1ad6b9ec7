/** The base case of the forward engine (hashlife.py, AbstractNode.create_mask,
    AbstractNode.round2 and Node.level2_bitmask): the one-generation future
    of the centre 2x2 block of a 4x4 block, computed on a 16-bit mask.

    The 16 cells of a level-2 node are packed row by row from the north,
    west to east: the cell listed k-th by create_mask goes to bit 15 - k,
    so the north-west cell sits at bit 15 and the south-east cell at bit 0.
    The masks are below 2^16, so 16-bit bit-vectors represent the source's
    integers exactly. */
module BaseCase {
  import opened Counting
  import opened Quadtree
  import opened Life

  /** Whether bit j of m is set. */
  predicate HasBit(m: bv16, j: bv16)
    requires j < 16
  {
    m & (1 << j) != 0
  }

  /** 1 if bit j of m is set, else 0. */
  function Bit(m: bv16, j: bv16): nat
    requires j < 16
  {
    B(HasBit(m, j))
  }

  /** Number of set bits of m: its lowest bit plus the set bits of m >> 1. */
  function BitCount(m: bv16): nat
    decreases m
  {
    if m == 0 then 0 else Bit(m, 0) + BitCount(m >> 1)
  }

  lemma ShiftCount(m: bv16, h: bv16)
    requires h == m >> 1
    ensures BitCount(m) == Bit(m, 0) + BitCount(h)
  {
  }

  lemma ClearOdd(m: bv16, c: bv16)
    requires m & 1 == 1 && c == m & (m - 1)
    ensures c >> 1 == m >> 1 && c & 1 == 0
  {
  }

  lemma ClearEven(m: bv16, c: bv16, h: bv16)
    requires m & 1 == 0 && m != 0 && c == m & (m - 1) && h == m >> 1
    ensures c >> 1 == h & (h - 1) && c & 1 == 0 && h != 0 && h < m
  {
  }

  /** Clearing the lowest set bit with m & (m - 1) removes exactly one set bit. */
  lemma {:induction false} ClearLowestBit(m: bv16, c: bv16)
    requires m != 0 && c == m & (m - 1)
    ensures BitCount(c) == BitCount(m) - 1
    decreases m
  {
    var h := m >> 1;
    ShiftCount(m, h);
    if m & 1 == 1 {
      ClearOdd(m, c);
      ShiftCount(c, h);
    } else {
      var d := h & (h - 1);
      ClearEven(m, c, h);
      ShiftCount(c, d);
      ClearLowestBit(h, d);
    }
  }

  /** The population-count loop of level2_bitmask: clear the lowest set bit
      until none is left, counting the rounds. */
  method PopCount(m: bv16) returns (count: nat)
    ensures count == BitCount(m)
  {
    var v := m;
    count := 0;
    while v != 0
      invariant count + BitCount(v) == BitCount(m)
      decreases BitCount(v)
    {
      ClearLowestBit(v, v & (v - 1));
      v := v & (v - 1);
      count := count + 1;
    }
  }

  /** Whether a node is a live cell (the source's `alive`). */
  function Alive(c: Node): bool
  {
    c.Cell? && c.alive
  }

  /** The sixteen grandchildren of a level-2 node in the order create_mask
      lists them: row by row from the north, west to east. */
  function Grandchildren(n: Node): seq<Node>
    requires n.Valid() && n.Level() == 2
  {
    [n.nw.nw, n.nw.ne, n.ne.nw, n.ne.ne,
     n.nw.sw, n.nw.se, n.ne.sw, n.ne.se,
     n.sw.nw, n.sw.ne, n.se.nw, n.se.ne,
     n.sw.sw, n.sw.se, n.se.sw, n.se.se]
  }

  /** The mask holds the 16 cells: bit j is set exactly when the cell listed
      (15 - j)-th is alive. */
  ghost predicate Encodes(mask: bv16, cells: seq<Node>)
    requires |cells| == 16
  {
    forall j: bv16 :: j < 16 ==> (HasBit(mask, j) <==> Alive(cells[15 - j as int]))
  }

  lemma OrBit(l: bv16, w: bv16)
    requires l & w == 0
    ensures l + w == l | w
  {
  }

  /** Adding a bit that is not set is the same as setting it. */
  lemma AddIsOr(l: bv16, i: bv16)
    requires i < 16 && !HasBit(l, i)
    ensures l + (1 << i) == l | (1 << i)
  {
    var w := 1 << i;
    assert l & w == 0;
    OrBit(l, w);
  }

  lemma OrSame(l: bv16, w: bv16)
    requires w != 0
    ensures (l | w) & w != 0
  {
  }

  lemma OrOther(l: bv16, w: bv16, v: bv16)
    requires w & v == 0
    ensures (l | w) & v == l & v
  {
  }

  lemma DistinctWeights(i: bv16, j: bv16)
    requires i < 16 && j < 16 && i != j
    ensures (1 as bv16 << i) & (1 as bv16 << j) == 0
  {
  }

  lemma SetSame(l: bv16, i: bv16)
    requires i < 16
    ensures HasBit(l | (1 << i), i)
  {
    OrSame(l, 1 << i);
  }

  lemma SetOther(l: bv16, i: bv16, j: bv16)
    requires i < 16 && j < 16 && i != j
    ensures HasBit(l | (1 << i), j) == HasBit(l, j)
  {
    DistinctWeights(i, j);
    OrOther(l, 1 << i, 1 << j);
  }

  /** Adding 2^i to a mask whose bit i is clear sets bit i and no other. */
  lemma AddWeight(l: bv16, i: bv16)
    requires i < 16 && !HasBit(l, i)
    ensures HasBit(l + (1 << i), i)
    ensures forall j: bv16 :: j < 16 && j != i ==> HasBit(l + (1 << i), j) == HasBit(l, j)
  {
    AddIsOr(l, i);
    SetSame(l, i);
    forall j: bv16 | j < 16 && j != i
      ensures HasBit(l | (1 << i), j) == HasBit(l, j)
    {
      SetOther(l, i, j);
    }
  }

  /** AbstractNode.create_mask: count i down from 16 and add 2^i for every
      live cell. */
  method CreateMask(n: Node) returns (l: bv16)
    requires n.Valid() && n.Level() == 2
    ensures Encodes(l, Grandchildren(n))
  {
    var a := Grandchildren(n);
    var i: bv16 := 16;
    l := 0;
    for t := 0 to 16
      invariant i as int == 16 - t
      invariant forall j: bv16 :: j < 16 ==> (HasBit(l, j) <==> (i <= j && Alive(a[15 - j as int])))
    {
      var k := i - 1;
      assert k as int == 15 - t;
      var l' := l;
      if Alive(a[t]) {
        assert !HasBit(l, k);
        AddWeight(l, k);
        l' := l + (1 << k);
        forall j: bv16 | j < 16
          ensures HasBit(l', j) <==> (k <= j && Alive(a[15 - j as int]))
        {
          if j == k {
            assert 15 - j as int == t;
          } else {
            assert HasBit(l', j) == HasBit(l, j);
            assert (k <= j) == (i <= j);
          }
        }
      } else {
        forall j: bv16 | j < 16
          ensures HasBit(l', j) <==> (k <= j && Alive(a[15 - j as int]))
        {
          if j == k {
            assert 15 - j as int == t;
          } else {
            assert (k <= j) == (i <= j);
          }
        }
      }
      i, l := k, l';
    }
  }

  // The neighbourhood masks of the four centre cells (0b0000011101010111,
  // 0b0000111010101110, 0b0111010101110000 and 0b1110101011100000 in binary).
  const B5: bv16 := 0x0757
  const B6: bv16 := 0x0EAE
  const B9: bv16 := 0x7570
  const B10: bv16 := 0xEAE0

  /** The centre cell whose own bit is `self` and whose neighbourhood mask is
      `b`: alive next if its bit is set and 2 neighbours are, or if 3 are. */
  function CentreCell(mask: bv16, self: bv16, b: bv16): Node
  {
    Cell(Rule(mask & self != 0, BitCount(mask & b)))
  }

  /** What Node.level2_bitmask computes from a mask: the next generation of
      the centre 2x2 block (bits 10, 9, 6, 5 become nw, ne, sw, se). */
  function Level2(mask: bv16): Node
  {
    Inner(CentreCell(mask, 0x400, B10), CentreCell(mask, 0x200, B9),
          CentreCell(mask, 0x40, B6), CentreCell(mask, 0x20, B5))
  }

  /** One block of Node.level2_bitmask: count the set bits of mask & b and
      apply the rule to the centre cell whose own bit is `self`. */
  method CentreCellOf(mask: bv16, self: bv16, b: bv16) returns (c: Node)
    ensures c == CentreCell(mask, self, b)
  {
    var n := PopCount(mask & b);
    if (mask & self != 0 && n == 2) || n == 3 {
      c := Cell(true);
    } else {
      c := Cell(false);
    }
  }

  /** Node.level2_bitmask: the four centre cells, from the masks of their
      neighbourhoods. */
  method Level2Bitmask(mask: bv16) returns (r: Node)
    ensures r == Level2(mask)
  {
    var cell5 := CentreCellOf(mask, 0x20, B5);
    var cell6 := CentreCellOf(mask, 0x40, B6);
    var cell9 := CentreCellOf(mask, 0x200, B9);
    var cell10 := CentreCellOf(mask, 0x400, B10);
    r := Inner(cell10, cell9, cell6, cell5);
  }

  /** AbstractNode.round2: the next state of the centre cell e from its eight
      neighbours a, b, c, d, f, g, h, i. */
  function Round2(a: Node, b: Node, c: Node, d: Node, e: Node, f: Node, g: Node, h: Node, i: Node): (r: Node)
    ensures r.Cell?
    ensures r.alive ==> 2 <= Sum8(Alive(a), Alive(b), Alive(c), Alive(d), Alive(f), Alive(g), Alive(h), Alive(i)) <= 3
    ensures !Alive(e) ==> (r.alive <==> Sum8(Alive(a), Alive(b), Alive(c), Alive(d), Alive(f), Alive(g), Alive(h), Alive(i)) == 3)
    ensures Alive(e) ==> (r.alive <==> 2 <= Sum8(Alive(a), Alive(b), Alive(c), Alive(d), Alive(f), Alive(g), Alive(h), Alive(i)) <= 3)
  {
    var res := Sum8(Alive(a), Alive(b), Alive(c), Alive(d), Alive(f), Alive(g), Alive(h), Alive(i));
    Cell(Rule(Alive(e), res))
  }

  /** The bits of m, four at a time from the lowest. */
  lemma Count4(m: bv16, h: bv16)
    requires h == m >> 4
    ensures BitCount(m) == Bit(m, 0) + Bit(m, 1) + Bit(m, 2) + Bit(m, 3) + BitCount(h)
  {
    var m1 := m >> 1;
    var m2 := m1 >> 1;
    var m3 := m2 >> 1;
    assert h == m3 >> 1;
    ShiftCount(m, m1);
    ShiftCount(m1, m2);
    ShiftCount(m2, m3);
    ShiftCount(m3, h);
    assert Bit(m1, 0) == Bit(m, 1) && Bit(m2, 0) == Bit(m, 2) && Bit(m3, 0) == Bit(m, 3);
  }

  /** Bit j of m >> 4 is bit j + 4 of m. */
  lemma ShiftBy4(m: bv16, h: bv16)
    requires h == m >> 4
    ensures Bit(h, 0) == Bit(m, 4) && Bit(h, 1) == Bit(m, 5) && Bit(h, 2) == Bit(m, 6) && Bit(h, 3) == Bit(m, 7)
  {
  }

  /** Bit j of m >> 8 is bit j + 8 of m. */
  lemma ShiftBy8(m: bv16, h: bv16)
    requires h == m >> 8
    ensures Bit(h, 0) == Bit(m, 8) && Bit(h, 1) == Bit(m, 9) && Bit(h, 2) == Bit(m, 10) && Bit(h, 3) == Bit(m, 11) &&
      Bit(h, 4) == Bit(m, 12) && Bit(h, 5) == Bit(m, 13) && Bit(h, 6) == Bit(m, 14) && Bit(h, 7) == Bit(m, 15)
  {
  }

  /** The low eight bits of m, bit by bit. */
  lemma Count8(m: bv16, h: bv16)
    requires h == m >> 8
    ensures BitCount(m) ==
      Bit(m, 0) + Bit(m, 1) + Bit(m, 2) + Bit(m, 3) + Bit(m, 4) + Bit(m, 5) + Bit(m, 6) + Bit(m, 7) + BitCount(h)
  {
    var h1 := m >> 4;
    assert h == h1 >> 4;
    Count4(m, h1);
    Count4(h1, h);
    ShiftBy4(m, h1);
  }

  /** The set bits of m, bit by bit. */
  lemma CountBits(m: bv16)
    ensures BitCount(m) ==
      Bit(m, 0) + Bit(m, 1) + Bit(m, 2) + Bit(m, 3) +
      Bit(m, 4) + Bit(m, 5) + Bit(m, 6) + Bit(m, 7) +
      Bit(m, 8) + Bit(m, 9) + Bit(m, 10) + Bit(m, 11) +
      Bit(m, 12) + Bit(m, 13) + Bit(m, 14) + Bit(m, 15)
  {
    var h := m >> 8;
    assert h >> 8 == 0;
    Count8(m, h);
    Count8(h, 0);
    ShiftBy8(m, h);
  }

  lemma AndB5(mask: bv16)
    ensures Bit(mask & B5, 0) == Bit(mask, 0) && Bit(mask & B5, 1) == Bit(mask, 1) && Bit(mask & B5, 2) == Bit(mask, 2) && Bit(mask & B5, 3) == 0 &&
      Bit(mask & B5, 4) == Bit(mask, 4) && Bit(mask & B5, 5) == 0 && Bit(mask & B5, 6) == Bit(mask, 6) && Bit(mask & B5, 7) == 0 &&
      Bit(mask & B5, 8) == Bit(mask, 8) && Bit(mask & B5, 9) == Bit(mask, 9) && Bit(mask & B5, 10) == Bit(mask, 10) && Bit(mask & B5, 11) == 0 &&
      Bit(mask & B5, 12) == 0 && Bit(mask & B5, 13) == 0 && Bit(mask & B5, 14) == 0 && Bit(mask & B5, 15) == 0
  {
  }

  /** The neighbours of bit 5 that B5 selects, counted. */
  lemma CountB5(mask: bv16)
    ensures BitCount(mask & B5) == Sum8(HasBit(mask, 10), HasBit(mask, 9), HasBit(mask, 8), HasBit(mask, 6), HasBit(mask, 4), HasBit(mask, 2), HasBit(mask, 1), HasBit(mask, 0))
  {
    CountBits(mask & B5);
    AndB5(mask);
  }

  lemma AndB6(mask: bv16)
    ensures Bit(mask & B6, 0) == 0 && Bit(mask & B6, 1) == Bit(mask, 1) && Bit(mask & B6, 2) == Bit(mask, 2) && Bit(mask & B6, 3) == Bit(mask, 3) &&
      Bit(mask & B6, 4) == 0 && Bit(mask & B6, 5) == Bit(mask, 5) && Bit(mask & B6, 6) == 0 && Bit(mask & B6, 7) == Bit(mask, 7) &&
      Bit(mask & B6, 8) == 0 && Bit(mask & B6, 9) == Bit(mask, 9) && Bit(mask & B6, 10) == Bit(mask, 10) && Bit(mask & B6, 11) == Bit(mask, 11) &&
      Bit(mask & B6, 12) == 0 && Bit(mask & B6, 13) == 0 && Bit(mask & B6, 14) == 0 && Bit(mask & B6, 15) == 0
  {
  }

  /** The neighbours of bit 6 that B6 selects, counted. */
  lemma CountB6(mask: bv16)
    ensures BitCount(mask & B6) == Sum8(HasBit(mask, 11), HasBit(mask, 10), HasBit(mask, 9), HasBit(mask, 7), HasBit(mask, 5), HasBit(mask, 3), HasBit(mask, 2), HasBit(mask, 1))
  {
    CountBits(mask & B6);
    AndB6(mask);
  }

  lemma AndB9(mask: bv16)
    ensures Bit(mask & B9, 0) == 0 && Bit(mask & B9, 1) == 0 && Bit(mask & B9, 2) == 0 && Bit(mask & B9, 3) == 0 &&
      Bit(mask & B9, 4) == Bit(mask, 4) && Bit(mask & B9, 5) == Bit(mask, 5) && Bit(mask & B9, 6) == Bit(mask, 6) && Bit(mask & B9, 7) == 0 &&
      Bit(mask & B9, 8) == Bit(mask, 8) && Bit(mask & B9, 9) == 0 && Bit(mask & B9, 10) == Bit(mask, 10) && Bit(mask & B9, 11) == 0 &&
      Bit(mask & B9, 12) == Bit(mask, 12) && Bit(mask & B9, 13) == Bit(mask, 13) && Bit(mask & B9, 14) == Bit(mask, 14) && Bit(mask & B9, 15) == 0
  {
  }

  /** The neighbours of bit 9 that B9 selects, counted. */
  lemma CountB9(mask: bv16)
    ensures BitCount(mask & B9) == Sum8(HasBit(mask, 14), HasBit(mask, 13), HasBit(mask, 12), HasBit(mask, 10), HasBit(mask, 8), HasBit(mask, 6), HasBit(mask, 5), HasBit(mask, 4))
  {
    CountBits(mask & B9);
    AndB9(mask);
  }

  lemma AndB10(mask: bv16)
    ensures Bit(mask & B10, 0) == 0 && Bit(mask & B10, 1) == 0 && Bit(mask & B10, 2) == 0 && Bit(mask & B10, 3) == 0 &&
      Bit(mask & B10, 4) == 0 && Bit(mask & B10, 5) == Bit(mask, 5) && Bit(mask & B10, 6) == Bit(mask, 6) && Bit(mask & B10, 7) == Bit(mask, 7) &&
      Bit(mask & B10, 8) == 0 && Bit(mask & B10, 9) == Bit(mask, 9) && Bit(mask & B10, 10) == 0 && Bit(mask & B10, 11) == Bit(mask, 11) &&
      Bit(mask & B10, 12) == 0 && Bit(mask & B10, 13) == Bit(mask, 13) && Bit(mask & B10, 14) == Bit(mask, 14) && Bit(mask & B10, 15) == Bit(mask, 15)
  {
  }

  /** The neighbours of bit 10 that B10 selects, counted. */
  lemma CountB10(mask: bv16)
    ensures BitCount(mask & B10) == Sum8(HasBit(mask, 15), HasBit(mask, 14), HasBit(mask, 13), HasBit(mask, 11), HasBit(mask, 9), HasBit(mask, 7), HasBit(mask, 6), HasBit(mask, 5))
  {
    CountBits(mask & B10);
    AndB10(mask);
  }



  /** One bit of an encoding mask. */
  lemma EncodedBit(mask: bv16, g: seq<Node>, j: bv16, k: int)
    requires |g| == 16 && Encodes(mask, g)
    requires j < 16 && k == 15 - j as int
    ensures HasBit(mask, j) <==> Alive(g[k])
  {
  }

  /** The next generation of the centre 2x2 block computed cell by cell with
      round2, each centre cell from its 3x3 neighbourhood. */
  function NextCentre(n: Node): (r: Node)
    requires n.Valid() && n.Level() == 2
    ensures r.Valid() && r.Level() == 1
  {
    Inner(Round2(n.nw.nw, n.nw.ne, n.ne.nw, n.nw.sw, n.nw.se, n.ne.sw, n.sw.nw, n.sw.ne, n.se.nw),
          Round2(n.nw.ne, n.ne.nw, n.ne.ne, n.nw.se, n.ne.sw, n.ne.se, n.sw.ne, n.se.nw, n.se.ne),
          Round2(n.nw.sw, n.nw.se, n.ne.sw, n.sw.nw, n.sw.ne, n.se.nw, n.sw.sw, n.sw.se, n.se.sw),
          Round2(n.nw.se, n.ne.sw, n.ne.se, n.sw.ne, n.se.nw, n.se.ne, n.sw.se, n.se.sw, n.se.se))
  }

  /** The north-west centre cell of a mask: the rule applied to bit 10 and
      to the number of its eight neighbouring bits that are set. */
  lemma RuleNW(mask: bv16)
    ensures CentreCell(mask, 0x400, B10) == Cell(Rule(HasBit(mask, 10), Sum8(HasBit(mask, 15), HasBit(mask, 14), HasBit(mask, 13), HasBit(mask, 11), HasBit(mask, 9), HasBit(mask, 7), HasBit(mask, 6), HasBit(mask, 5))))
  {
    CountB10(mask);
    assert (mask & 0x400 != 0) == HasBit(mask, 10);
  }

  lemma Round2NW(mask: bv16, a: Node, b: Node, c: Node, d: Node, e: Node, f: Node, g: Node, h: Node, i: Node)
    requires HasBit(mask, 15) == Alive(a) && HasBit(mask, 14) == Alive(b) && HasBit(mask, 13) == Alive(c)
    requires HasBit(mask, 11) == Alive(d) && HasBit(mask, 10) == Alive(e) && HasBit(mask, 9) == Alive(f)
    requires HasBit(mask, 7) == Alive(g) && HasBit(mask, 6) == Alive(h) && HasBit(mask, 5) == Alive(i)
    ensures CentreCell(mask, 0x400, B10) == Round2(a, b, c, d, e, f, g, h, i)
  {
    RuleNW(mask);
  }

  lemma Level2NW(n: Node, mask: bv16)
    requires n.Valid() && n.Level() == 2 && Encodes(mask, Grandchildren(n))
    ensures CentreCell(mask, 0x400, B10) == Round2(n.nw.nw, n.nw.ne, n.ne.nw, n.nw.sw, n.nw.se, n.ne.sw, n.sw.nw, n.sw.ne, n.se.nw)
  {
    var g := Grandchildren(n);
    EncodedBit(mask, g, 15, 0);
    EncodedBit(mask, g, 14, 1);
    EncodedBit(mask, g, 13, 2);
    EncodedBit(mask, g, 11, 4);
    EncodedBit(mask, g, 10, 5);
    EncodedBit(mask, g, 9, 6);
    EncodedBit(mask, g, 7, 8);
    EncodedBit(mask, g, 6, 9);
    EncodedBit(mask, g, 5, 10);
    Round2NW(mask, n.nw.nw, n.nw.ne, n.ne.nw, n.nw.sw, n.nw.se, n.ne.sw, n.sw.nw, n.sw.ne, n.se.nw);
  }

  /** The north-east centre cell of a mask: the rule applied to bit 9 and
      to the number of its eight neighbouring bits that are set. */
  lemma RuleNE(mask: bv16)
    ensures CentreCell(mask, 0x200, B9) == Cell(Rule(HasBit(mask, 9), Sum8(HasBit(mask, 14), HasBit(mask, 13), HasBit(mask, 12), HasBit(mask, 10), HasBit(mask, 8), HasBit(mask, 6), HasBit(mask, 5), HasBit(mask, 4))))
  {
    CountB9(mask);
    assert (mask & 0x200 != 0) == HasBit(mask, 9);
  }

  lemma Round2NE(mask: bv16, a: Node, b: Node, c: Node, d: Node, e: Node, f: Node, g: Node, h: Node, i: Node)
    requires HasBit(mask, 14) == Alive(a) && HasBit(mask, 13) == Alive(b) && HasBit(mask, 12) == Alive(c)
    requires HasBit(mask, 10) == Alive(d) && HasBit(mask, 9) == Alive(e) && HasBit(mask, 8) == Alive(f)
    requires HasBit(mask, 6) == Alive(g) && HasBit(mask, 5) == Alive(h) && HasBit(mask, 4) == Alive(i)
    ensures CentreCell(mask, 0x200, B9) == Round2(a, b, c, d, e, f, g, h, i)
  {
    RuleNE(mask);
  }

  lemma Level2NE(n: Node, mask: bv16)
    requires n.Valid() && n.Level() == 2 && Encodes(mask, Grandchildren(n))
    ensures CentreCell(mask, 0x200, B9) == Round2(n.nw.ne, n.ne.nw, n.ne.ne, n.nw.se, n.ne.sw, n.ne.se, n.sw.ne, n.se.nw, n.se.ne)
  {
    var g := Grandchildren(n);
    EncodedBit(mask, g, 14, 1);
    EncodedBit(mask, g, 13, 2);
    EncodedBit(mask, g, 12, 3);
    EncodedBit(mask, g, 10, 5);
    EncodedBit(mask, g, 9, 6);
    EncodedBit(mask, g, 8, 7);
    EncodedBit(mask, g, 6, 9);
    EncodedBit(mask, g, 5, 10);
    EncodedBit(mask, g, 4, 11);
    Round2NE(mask, n.nw.ne, n.ne.nw, n.ne.ne, n.nw.se, n.ne.sw, n.ne.se, n.sw.ne, n.se.nw, n.se.ne);
  }

  /** The south-west centre cell of a mask: the rule applied to bit 6 and
      to the number of its eight neighbouring bits that are set. */
  lemma RuleSW(mask: bv16)
    ensures CentreCell(mask, 0x40, B6) == Cell(Rule(HasBit(mask, 6), Sum8(HasBit(mask, 11), HasBit(mask, 10), HasBit(mask, 9), HasBit(mask, 7), HasBit(mask, 5), HasBit(mask, 3), HasBit(mask, 2), HasBit(mask, 1))))
  {
    CountB6(mask);
    assert (mask & 0x40 != 0) == HasBit(mask, 6);
  }

  lemma Round2SW(mask: bv16, a: Node, b: Node, c: Node, d: Node, e: Node, f: Node, g: Node, h: Node, i: Node)
    requires HasBit(mask, 11) == Alive(a) && HasBit(mask, 10) == Alive(b) && HasBit(mask, 9) == Alive(c)
    requires HasBit(mask, 7) == Alive(d) && HasBit(mask, 6) == Alive(e) && HasBit(mask, 5) == Alive(f)
    requires HasBit(mask, 3) == Alive(g) && HasBit(mask, 2) == Alive(h) && HasBit(mask, 1) == Alive(i)
    ensures CentreCell(mask, 0x40, B6) == Round2(a, b, c, d, e, f, g, h, i)
  {
    RuleSW(mask);
  }

  lemma Level2SW(n: Node, mask: bv16)
    requires n.Valid() && n.Level() == 2 && Encodes(mask, Grandchildren(n))
    ensures CentreCell(mask, 0x40, B6) == Round2(n.nw.sw, n.nw.se, n.ne.sw, n.sw.nw, n.sw.ne, n.se.nw, n.sw.sw, n.sw.se, n.se.sw)
  {
    var g := Grandchildren(n);
    EncodedBit(mask, g, 11, 4);
    EncodedBit(mask, g, 10, 5);
    EncodedBit(mask, g, 9, 6);
    EncodedBit(mask, g, 7, 8);
    EncodedBit(mask, g, 6, 9);
    EncodedBit(mask, g, 5, 10);
    EncodedBit(mask, g, 3, 12);
    EncodedBit(mask, g, 2, 13);
    EncodedBit(mask, g, 1, 14);
    Round2SW(mask, n.nw.sw, n.nw.se, n.ne.sw, n.sw.nw, n.sw.ne, n.se.nw, n.sw.sw, n.sw.se, n.se.sw);
  }

  /** The south-east centre cell of a mask: the rule applied to bit 5 and
      to the number of its eight neighbouring bits that are set. */
  lemma RuleSE(mask: bv16)
    ensures CentreCell(mask, 0x20, B5) == Cell(Rule(HasBit(mask, 5), Sum8(HasBit(mask, 10), HasBit(mask, 9), HasBit(mask, 8), HasBit(mask, 6), HasBit(mask, 4), HasBit(mask, 2), HasBit(mask, 1), HasBit(mask, 0))))
  {
    CountB5(mask);
    assert (mask & 0x20 != 0) == HasBit(mask, 5);
  }

  lemma Round2SE(mask: bv16, a: Node, b: Node, c: Node, d: Node, e: Node, f: Node, g: Node, h: Node, i: Node)
    requires HasBit(mask, 10) == Alive(a) && HasBit(mask, 9) == Alive(b) && HasBit(mask, 8) == Alive(c)
    requires HasBit(mask, 6) == Alive(d) && HasBit(mask, 5) == Alive(e) && HasBit(mask, 4) == Alive(f)
    requires HasBit(mask, 2) == Alive(g) && HasBit(mask, 1) == Alive(h) && HasBit(mask, 0) == Alive(i)
    ensures CentreCell(mask, 0x20, B5) == Round2(a, b, c, d, e, f, g, h, i)
  {
    RuleSE(mask);
  }

  lemma Level2SE(n: Node, mask: bv16)
    requires n.Valid() && n.Level() == 2 && Encodes(mask, Grandchildren(n))
    ensures CentreCell(mask, 0x20, B5) == Round2(n.nw.se, n.ne.sw, n.ne.se, n.sw.ne, n.se.nw, n.se.ne, n.sw.se, n.se.sw, n.se.se)
  {
    var g := Grandchildren(n);
    EncodedBit(mask, g, 10, 5);
    EncodedBit(mask, g, 9, 6);
    EncodedBit(mask, g, 8, 7);
    EncodedBit(mask, g, 6, 9);
    EncodedBit(mask, g, 5, 10);
    EncodedBit(mask, g, 4, 11);
    EncodedBit(mask, g, 2, 13);
    EncodedBit(mask, g, 1, 14);
    EncodedBit(mask, g, 0, 15);
    Round2SE(mask, n.nw.se, n.ne.sw, n.ne.se, n.sw.ne, n.se.nw, n.se.ne, n.sw.se, n.se.sw, n.se.se);
  }

  /** The bitmask computation agrees with round2 applied to every centre cell. */
  lemma Level2IsNextCentre(n: Node, mask: bv16)
    requires n.Valid() && n.Level() == 2 && Encodes(mask, Grandchildren(n))
    ensures Level2(mask) == NextCentre(n)
  {
    Level2NW(n, mask);
    Level2NE(n, mask);
    Level2SW(n, mask);
    Level2SE(n, mask);
  }

  /** The four cells of a level-1 node. */
  lemma ChildAt(c: Node)
    requires c.Valid() && c.Level() == 1
    ensures c.At(0, 1) == Alive(c.nw) && c.At(1, 1) == Alive(c.ne) && c.At(0, 0) == Alive(c.sw) && c.At(1, 0) == Alive(c.se)
  {
    assert c.nw.Cell? && c.ne.Cell? && c.sw.Cell? && c.se.Cell?;
    assert Pow2(0) == 1;
  }

  /** Where the sixteen cells of a level-2 node sit in its square. */
  lemma BlockAt(n: Node)
    requires n.Valid() && n.Level() == 2
    ensures n.At(0, 3) == Alive(n.nw.nw) && n.At(1, 3) == Alive(n.nw.ne) && n.At(2, 3) == Alive(n.ne.nw) && n.At(3, 3) == Alive(n.ne.ne)
    ensures n.At(0, 2) == Alive(n.nw.sw) && n.At(1, 2) == Alive(n.nw.se) && n.At(2, 2) == Alive(n.ne.sw) && n.At(3, 2) == Alive(n.ne.se)
    ensures n.At(0, 1) == Alive(n.sw.nw) && n.At(1, 1) == Alive(n.sw.ne) && n.At(2, 1) == Alive(n.se.nw) && n.At(3, 1) == Alive(n.se.ne)
    ensures n.At(0, 0) == Alive(n.sw.sw) && n.At(1, 0) == Alive(n.sw.se) && n.At(2, 0) == Alive(n.se.sw) && n.At(3, 0) == Alive(n.se.se)
  {
    ChildAt(n.nw);
    ChildAt(n.ne);
    ChildAt(n.sw);
    ChildAt(n.se);
    assert Pow2(n.nw.Level()) == 2;
  }

  /** BlockAt, read through the plane view of the node. */
  lemma CellsBlock(n: Node)
    requires n.Valid() && n.Level() == 2
    ensures var p := Cells(n);
      p(0, 3) == Alive(n.nw.nw) && p(1, 3) == Alive(n.nw.ne) && p(2, 3) == Alive(n.ne.nw) && p(3, 3) == Alive(n.ne.ne) &&
      p(0, 2) == Alive(n.nw.sw) && p(1, 2) == Alive(n.nw.se) && p(2, 2) == Alive(n.ne.sw) && p(3, 2) == Alive(n.ne.se) &&
      p(0, 1) == Alive(n.sw.nw) && p(1, 1) == Alive(n.sw.ne) && p(2, 1) == Alive(n.se.nw) && p(3, 1) == Alive(n.se.ne) &&
      p(0, 0) == Alive(n.sw.sw) && p(1, 0) == Alive(n.sw.se) && p(2, 0) == Alive(n.se.sw) && p(3, 0) == Alive(n.se.se)
  {
    BlockAt(n);
  }

  /** round2 is the Life rule at (x, y) of a plane whose cells around
      (x, y), row by row from the north-west, are the nine given cells. */
  lemma Round2IsStep(p: Plane, x: int, y: int, a: Node, b: Node, c: Node, d: Node, e: Node, f: Node, g: Node, h: Node, i: Node)
    requires p(x - 1, y + 1) == Alive(a) && p(x, y + 1) == Alive(b) && p(x + 1, y + 1) == Alive(c)
    requires p(x - 1, y) == Alive(d) && p(x, y) == Alive(e) && p(x + 1, y) == Alive(f)
    requires p(x - 1, y - 1) == Alive(g) && p(x, y - 1) == Alive(h) && p(x + 1, y - 1) == Alive(i)
    ensures Round2(a, b, c, d, e, f, g, h, i) == Cell(Next(p, x, y))
  {
    assert Neighbours(p, x, y) == Sum8(Alive(a), Alive(b), Alive(c), Alive(d), Alive(f), Alive(g), Alive(h), Alive(i));
  }

  lemma StepNW(n: Node)
    requires n.Valid() && n.Level() == 2
    ensures NextCentre(n).nw == Cell(Next(Cells(n), 1, 2))
  {
    CellsBlock(n);
    Round2IsStep(Cells(n), 1, 2, n.nw.nw, n.nw.ne, n.ne.nw, n.nw.sw, n.nw.se, n.ne.sw, n.sw.nw, n.sw.ne, n.se.nw);
  }

  lemma StepNE(n: Node)
    requires n.Valid() && n.Level() == 2
    ensures NextCentre(n).ne == Cell(Next(Cells(n), 2, 2))
  {
    CellsBlock(n);
    Round2IsStep(Cells(n), 2, 2, n.nw.ne, n.ne.nw, n.ne.ne, n.nw.se, n.ne.sw, n.ne.se, n.sw.ne, n.se.nw, n.se.ne);
  }

  lemma StepSW(n: Node)
    requires n.Valid() && n.Level() == 2
    ensures NextCentre(n).sw == Cell(Next(Cells(n), 1, 1))
  {
    CellsBlock(n);
    Round2IsStep(Cells(n), 1, 1, n.nw.sw, n.nw.se, n.ne.sw, n.sw.nw, n.sw.ne, n.se.nw, n.sw.sw, n.sw.se, n.se.sw);
  }

  lemma StepSE(n: Node)
    requires n.Valid() && n.Level() == 2
    ensures NextCentre(n).se == Cell(Next(Cells(n), 2, 1))
  {
    CellsBlock(n);
    Round2IsStep(Cells(n), 2, 1, n.nw.se, n.ne.sw, n.ne.se, n.sw.ne, n.se.nw, n.se.ne, n.sw.se, n.se.sw, n.se.se);
  }

  /** The centre computed by round2, cell by cell: each of its four cells
      is the Life rule at the matching cell of the node's centre. */
  lemma NextCentreCells(n: Node)
    requires n.Valid() && n.Level() == 2
    ensures NextCentre(n).nw == Cell(Next(Cells(n), 1, 2)) && NextCentre(n).ne == Cell(Next(Cells(n), 2, 2))
    ensures NextCentre(n).sw == Cell(Next(Cells(n), 1, 1)) && NextCentre(n).se == Cell(Next(Cells(n), 2, 1))
  {
    StepNW(n);
    StepNE(n);
    StepSW(n);
    StepSE(n);
  }

  /** The centre computed by round2 is one generation of the Life rule on
      the node's 4x4 square: cell (x, y) of the result is cell (x+1, y+1)
      of the next generation. */
  lemma NextCentreIsLifeStep(n: Node)
    requires n.Valid() && n.Level() == 2
    ensures NextCentre(n).Valid() && NextCentre(n).Level() == 1
    ensures forall x, y :: 0 <= x < 2 && 0 <= y < 2 ==> NextCentre(n).At(x, y) == Next(Cells(n), x + 1, y + 1)
  {
    NextCentreCells(n);
    var r := NextCentre(n);
    ChildAt(r);
    forall x, y | 0 <= x < 2 && 0 <= y < 2 ensures r.At(x, y) == Next(Cells(n), x + 1, y + 1) {
      if y == 1 {
        if x == 0 { assert r.At(x, y) == Alive(r.nw); } else { assert r.At(x, y) == Alive(r.ne); }
      } else {
        if x == 0 { assert r.At(x, y) == Alive(r.sw); } else { assert r.At(x, y) == Alive(r.se); }
      }
    }
  }
}
