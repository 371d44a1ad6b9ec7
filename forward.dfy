/** AbstractNode.forward (hashlife.py): the node's centre, advanced in time.

    A node of level L >= 2 covers a square of side 2^L; forward returns the
    node of level L - 1 that covers the middle of that square, some
    generations later. The exponent l selects how many: it is first clamped
    to at most L - 2, and the result is 2^l generations ahead (one
    generation when l <= 0).

    `Advance` is the recursion of the source written as a function; the
    class `Engine` is the source's method with its memo table. */
module Forward {
  import opened Quadtree
  import opened BaseCase
  import opened Wrappers

  /** The exponent forward actually uses at level L: an absent or too large
      one becomes L - 2. */
  function Clamp(level: nat, l: Option<int>): (c: int)
    ensures c <= level - 2
    ensures l.Some? && l.value <= level - 2 ==> c == l.value
    ensures l.Some? && l.value > level - 2 ==> c == level - 2
    ensures l.None? ==> c == level - 2
  {
    if l.None? || l.value > level - 2 then level - 2 else l.value
  }

  /** The sixteen grandchildren of a node of level >= 2 are valid nodes of
      level L - 2. */
  lemma GrandchildLevels(n: Node)
    requires n.Valid() && n.Level() >= 2
    ensures n.nw.Inner? && n.ne.Inner? && n.sw.Inner? && n.se.Inner?
    ensures var k := n.Level() - 2;
      n.nw.nw.Valid() && n.nw.ne.Valid() && n.nw.sw.Valid() && n.nw.se.Valid() &&
      n.ne.nw.Valid() && n.ne.ne.Valid() && n.ne.sw.Valid() && n.ne.se.Valid() &&
      n.sw.nw.Valid() && n.sw.ne.Valid() && n.sw.sw.Valid() && n.sw.se.Valid() &&
      n.se.nw.Valid() && n.se.ne.Valid() && n.se.sw.Valid() && n.se.se.Valid() &&
      n.nw.nw.Level() == k && n.nw.ne.Level() == k && n.nw.sw.Level() == k && n.nw.se.Level() == k &&
      n.ne.nw.Level() == k && n.ne.ne.Level() == k && n.ne.sw.Level() == k && n.ne.se.Level() == k &&
      n.sw.nw.Level() == k && n.sw.ne.Level() == k && n.sw.sw.Level() == k && n.sw.se.Level() == k &&
      n.se.nw.Level() == k && n.se.ne.Level() == k && n.se.sw.Level() == k && n.se.se.Level() == k
  {
  }

  // The nine overlapping windows of a node of level >= 2, each of level
  // L - 1, named as in the source: top row NW, TC, NE; middle row CL, CC,
  // CR; bottom row SW, BC, SE.

  function WinNW(n: Node): (w: Node)
    requires n.Valid() && n.Level() >= 2
    ensures w.Valid() && w.Level() == n.Level() - 1
  {
    GrandchildLevels(n);
    Inner(n.nw.nw, n.nw.ne, n.nw.sw, n.nw.se)
  }

  function WinTC(n: Node): (w: Node)
    requires n.Valid() && n.Level() >= 2
    ensures w.Valid() && w.Level() == n.Level() - 1
  {
    GrandchildLevels(n);
    Inner(n.nw.ne, n.ne.nw, n.nw.se, n.ne.sw)
  }

  function WinNE(n: Node): (w: Node)
    requires n.Valid() && n.Level() >= 2
    ensures w.Valid() && w.Level() == n.Level() - 1
  {
    GrandchildLevels(n);
    Inner(n.ne.nw, n.ne.ne, n.ne.sw, n.ne.se)
  }

  function WinCL(n: Node): (w: Node)
    requires n.Valid() && n.Level() >= 2
    ensures w.Valid() && w.Level() == n.Level() - 1
  {
    GrandchildLevels(n);
    Inner(n.nw.sw, n.nw.se, n.sw.nw, n.sw.ne)
  }

  function WinCC(n: Node): (w: Node)
    requires n.Valid() && n.Level() >= 2
    ensures w.Valid() && w.Level() == n.Level() - 1
  {
    GrandchildLevels(n);
    Inner(n.nw.se, n.ne.sw, n.sw.ne, n.se.nw)
  }

  function WinCR(n: Node): (w: Node)
    requires n.Valid() && n.Level() >= 2
    ensures w.Valid() && w.Level() == n.Level() - 1
  {
    GrandchildLevels(n);
    Inner(n.ne.sw, n.ne.se, n.se.nw, n.se.ne)
  }

  function WinSW(n: Node): (w: Node)
    requires n.Valid() && n.Level() >= 2
    ensures w.Valid() && w.Level() == n.Level() - 1
  {
    GrandchildLevels(n);
    Inner(n.sw.nw, n.sw.ne, n.sw.sw, n.sw.se)
  }

  function WinBC(n: Node): (w: Node)
    requires n.Valid() && n.Level() >= 2
    ensures w.Valid() && w.Level() == n.Level() - 1
  {
    GrandchildLevels(n);
    Inner(n.sw.ne, n.se.nw, n.sw.se, n.se.sw)
  }

  function WinSE(n: Node): (w: Node)
    requires n.Valid() && n.Level() >= 2
    ensures w.Valid() && w.Level() == n.Level() - 1
  {
    GrandchildLevels(n);
    Inner(n.se.nw, n.se.ne, n.se.sw, n.se.se)
  }


  /** forward for a node of level >= 2 and a given exponent, without the
      memo table. */
  function Advance(n: Node, l: int): (r: Node)
    requires n.Valid() && n.Level() >= 2
    ensures r.Valid() && r.Level() == n.Level() - 1
    decreases n.Level(), 1
  {
    var L := n.Level();
    var l := if l > L - 2 then L - 2 else l;
    if n.Population() == 0 then Zero(L - 1)
    else if L == 2 then NextCentre(n)
    else Combine(n, l)
  }

  /** The recursive case of forward, above level 2: forward the nine
      windows, then assemble the four quadrants of the result from them. */
  function Combine(n: Node, l: int): (r: Node)
    requires n.Valid() && n.Level() >= 3
    ensures r.Valid() && r.Level() == n.Level() - 1
    decreases n.Level(), 0
  {
    Assemble(Advance(WinNW(n), l), Advance(WinTC(n), l), Advance(WinNE(n), l),
             Advance(WinCL(n), l), Advance(WinCC(n), l), Advance(WinCR(n), l),
             Advance(WinSW(n), l), Advance(WinBC(n), l), Advance(WinSE(n), l),
             l, l == n.Level() - 2)
  }

  /** The result of forward from the nine window results, each quadrant
      from the four window results that overlap it. */
  function Assemble(rNW: Node, rTC: Node, rNE: Node, rCL: Node, rCC: Node, rCR: Node,
                    rSW: Node, rBC: Node, rSE: Node, l: int, full: bool): (r: Node)
    requires rNW.Valid() && rTC.Valid() && rNE.Valid() && rCL.Valid() && rCC.Valid() &&
             rCR.Valid() && rSW.Valid() && rBC.Valid() && rSE.Valid() && rNW.Level() >= 1
    requires rTC.Level() == rNE.Level() == rCL.Level() == rCC.Level() == rCR.Level() ==
             rSW.Level() == rBC.Level() == rSE.Level() == rNW.Level()
    ensures r.Valid() && r.Level() == rNW.Level() + 1
    decreases rNW.Level() + 1, 3
  {
    Inner(Group(rNW, rTC, rCL, rCC, l, full), Group(rTC, rNE, rCC, rCR, l, full),
          Group(rCL, rCC, rSW, rBC, l, full), Group(rCC, rCR, rBC, rSE, l, full))
  }

  /** One quadrant of forward's result from four of the nine window results:
      when the exponent is the largest (`full`) the four are forwarded once
      more, otherwise their centre quadrants are taken. */
  function Group(a: Node, b: Node, c: Node, d: Node, l: int, full: bool): (r: Node)
    requires a.Valid() && b.Valid() && c.Valid() && d.Valid() && a.Level() >= 1
    requires b.Level() == a.Level() && c.Level() == a.Level() && d.Level() == a.Level()
    ensures r.Valid() && r.Level() == a.Level()
    decreases a.Level() + 1, 2
  {
    if full then Advance(Inner(a, b, c, d), l) else Inner(a.se, b.sw, c.ne, d.nw)
  }

  /** AbstractNode.forward on a node of level >= 1, without the memo table:
      a level-1 node with a live cell has no result. */
  function Fwd(n: Node, l: Option<int>): (r: Option<Node>)
    requires n.Valid() && n.Level() >= 1
    ensures r.None? <==> n.Level() == 1 && n.Population() != 0
    ensures r.Some? ==> r.value.Valid() && r.value.Level() == n.Level() - 1
  {
    if n.Level() == 1 then
      (if n.Population() == 0 then Some(Zero(0)) else None)
    else
      Some(Advance(n, Clamp(n.Level(), l)))
  }

  // The branches of forward, one lemma each.

  /** A dead node gives the dead node one level down, whatever the exponent. */
  lemma ForwardDead(n: Node, l: Option<int>)
    requires n.Valid() && n.Level() >= 1 && n.Population() == 0
    ensures Fwd(n, l) == Some(Zero(n.Level() - 1))
  {
    if n.Level() >= 2 {
      AdvanceCases(n, Clamp(n.Level(), l));
    }
  }

  /** A level-1 node with a live cell gives nothing. */
  lemma ForwardLevel1(n: Node, l: Option<int>)
    requires n.Valid() && n.Level() == 1 && n.Population() != 0
    ensures Fwd(n, l) == None
  {
  }

  /** A live level-2 node gives the next generation of its centre. */
  lemma ForwardLevel2(n: Node, l: Option<int>)
    requires n.Valid() && n.Level() == 2 && n.Population() != 0
    ensures Fwd(n, l) == Some(NextCentre(n))
  {
    AdvanceCases(n, Clamp(n.Level(), l));
  }

  /** A live node above level 2 gives the recursive case, with the exponent
      clamped. */
  lemma ForwardAbove2(n: Node, l: Option<int>)
    requires n.Valid() && n.Level() >= 3 && n.Population() != 0
    ensures Fwd(n, l) == Some(Combine(n, Clamp(n.Level(), l)))
  {
    AdvanceCases(n, Clamp(n.Level(), l));
  }

  /** Above level 1, forward always has a result: Advance with the clamped
      exponent. */
  lemma ForwardIsAdvance(n: Node, l: Option<int>)
    requires n.Valid() && n.Level() >= 2
    ensures Fwd(n, l) == Some(Advance(n, Clamp(n.Level(), l)))
  {
  }

  /** The branches of forward for an exponent in range: a dead node gives
      the dead node one level down; otherwise a level-2 node gives the next
      generation of its centre, and a higher node the recursive case. */
  lemma AdvanceCases(n: Node, l: int)
    requires n.Valid() && n.Level() >= 2 && l <= n.Level() - 2
    ensures n.Population() == 0 ==> Advance(n, l) == Zero(n.Level() - 1)
    ensures n.Population() != 0 && n.Level() == 2 ==> Advance(n, l) == NextCentre(n)
    ensures n.Population() != 0 && n.Level() >= 3 ==> Advance(n, l) == Combine(n, l)
  {
  }

  /** The base case of forward: the bitmask computation, which yields the
      next generation of the centre. */
  method Level2Step(n: Node) returns (c: Node)
    requires n.Valid() && n.Level() == 2
    ensures c == NextCentre(n)
  {
    var mask := CreateMask(n);
    c := Level2Bitmask(mask);
    Level2IsNextCentre(n, mask);
  }

  /** An exponent above L - 2 acts as L - 2. */
  lemma AdvanceClamp(n: Node, l: int)
    requires n.Valid() && n.Level() >= 2
    ensures Advance(n, Clamp(n.Level(), Some(l))) == Advance(n, l)
  {
    var L := n.Level();
    if l > L - 2 {
      assert Clamp(L, Some(l)) == L - 2;
      AdvanceTop(n, l);
    }
  }

  /** Every exponent above L - 2 gives the same result as L - 2. */
  lemma AdvanceTop(n: Node, l: int)
    requires n.Valid() && n.Level() >= 2 && l > n.Level() - 2
    ensures Advance(n, l) == Advance(n, n.Level() - 2)
  {
  }

  /** AbstractNode.forward with its memo table. The source keeps one table
      per node object, keyed by the clamped exponent; since equal nodes are
      one object there, a single table keyed by (node, exponent) holds the
      same entries. */
  class Engine {
    var cache: map<(Node, int), Node>

    /** Every entry of the table is what forward computes for its key. */
    ghost predicate Valid()
      reads this
    {
      forall k :: k in cache ==> k.0.Valid() && k.0.Level() >= 3 && cache[k] == Advance(k.0, k.1)
    }

    constructor()
      ensures Valid() && cache == map[]
    {
      cache := map[];
    }

    /** forward(l) on the node n. */
    method Forward(n: Node, l: Option<int>) returns (r: Option<Node>)
      requires Valid() && n.Valid() && n.Level() >= 1
      modifies this
      ensures Valid() && r == Fwd(n, l)
      ensures old(cache).Keys <= cache.Keys
      ensures n.Level() >= 3 && n.Population() != 0 ==>
                (n, Clamp(n.Level(), l)) in cache && Some(cache[(n, Clamp(n.Level(), l))]) == r
      decreases n.Level(), 1, 0
    {
      var L := n.Level();
      var lc := if l.None? || l.value > L - 2 then L - 2 else l.value;
      assert lc == Clamp(L, l);
      if (n, lc) in cache {
        ForwardIsAdvance(n, l);
        return Some(cache[(n, lc)]);
      }
      if n.Population() == 0 {
        var z := BuildZero(L - 1);
        ForwardDead(n, l);
        return Some(z);
      }
      if L < 2 {
        ForwardLevel1(n, l);
        return None;
      }
      r := ForwardLive(n, l, lc);
    }

    /** forward(l) on a live node of level >= 2 whose result is not in the
        table yet: the base case at level 2, the recursive case above, whose
        result is entered in the table. */
    method ForwardLive(n: Node, l: Option<int>, lc: int) returns (r: Option<Node>)
      requires Valid() && n.Valid() && n.Level() >= 2 && n.Population() != 0
      requires lc == Clamp(n.Level(), l) && (n, lc) !in cache
      modifies this
      ensures Valid() && r == Fwd(n, l)
      ensures old(cache).Keys <= cache.Keys
      ensures n.Level() >= 3 ==> (n, lc) in cache && Some(cache[(n, lc)]) == r
      decreases n.Level(), 0, 1
    {
      if n.Level() == 2 {
        var c := Level2Step(n);
        ForwardLevel2(n, l);
        return Some(c);
      }
      var res := CombineOf(n, lc);
      ForwardAbove2(n, l);
      AdvanceCases(n, lc);
      cache := cache[(n, lc) := res];
      return Some(res);
    }

    /** The recursive case, as Combine. */
    method CombineOf(n: Node, l: int) returns (r: Node)
      requires Valid() && n.Valid() && n.Level() >= 3
      modifies this
      ensures Valid() && r == Combine(n, l)
      ensures old(cache).Keys <= cache.Keys
      decreases n.Level(), 0, 0
    {
      var rNW := Window(WinNW(n), l);
      var rTC := Window(WinTC(n), l);
      var rNE := Window(WinNE(n), l);
      var rCL := Window(WinCL(n), l);
      var rCC := Window(WinCC(n), l);
      var rCR := Window(WinCR(n), l);
      var rSW := Window(WinSW(n), l);
      var rBC := Window(WinBC(n), l);
      var rSE := Window(WinSE(n), l);
      r := AssembleOf(rNW, rTC, rNE, rCL, rCC, rCR, rSW, rBC, rSE, l, l == n.Level() - 2);
    }

    /** The four quadrants, as Assemble. */
    method AssembleOf(rNW: Node, rTC: Node, rNE: Node, rCL: Node, rCC: Node, rCR: Node,
                      rSW: Node, rBC: Node, rSE: Node, l: int, full: bool) returns (r: Node)
      requires Valid()
      requires rNW.Valid() && rTC.Valid() && rNE.Valid() && rCL.Valid() && rCC.Valid() &&
               rCR.Valid() && rSW.Valid() && rBC.Valid() && rSE.Valid() && rNW.Level() >= 1
      requires rTC.Level() == rNE.Level() == rCL.Level() == rCC.Level() == rCR.Level() ==
               rSW.Level() == rBC.Level() == rSE.Level() == rNW.Level()
      modifies this
      ensures Valid() && r == Assemble(rNW, rTC, rNE, rCL, rCC, rCR, rSW, rBC, rSE, l, full)
      ensures old(cache).Keys <= cache.Keys
      decreases rNW.Level() + 1, 4
    {
      var q1 := GroupOf(rNW, rTC, rCL, rCC, l, full);
      var q2 := GroupOf(rTC, rNE, rCC, rCR, l, full);
      var q3 := GroupOf(rCL, rCC, rSW, rBC, l, full);
      var q4 := GroupOf(rCC, rCR, rBC, rSE, l, full);
      r := Inner(q1, q2, q3, q4);
    }

    /** forward(l) on a node of level >= 2, which always has a result. */
    method Window(w: Node, l: int) returns (r: Node)
      requires Valid() && w.Valid() && w.Level() >= 2
      modifies this
      ensures Valid() && r == Advance(w, l)
      ensures old(cache).Keys <= cache.Keys
      decreases w.Level(), 2
    {
      var o := Forward(w, Some(l));
      AdvanceClamp(w, l);
      r := o.value;
    }

    /** One quadrant of the result, as Group. */
    method GroupOf(a: Node, b: Node, c: Node, d: Node, l: int, full: bool) returns (r: Node)
      requires Valid() && a.Valid() && b.Valid() && c.Valid() && d.Valid() && a.Level() >= 1
      requires b.Level() == a.Level() && c.Level() == a.Level() && d.Level() == a.Level()
      modifies this
      ensures Valid() && r == Group(a, b, c, d, l, full)
      ensures old(cache).Keys <= cache.Keys
      decreases a.Level() + 1, 3
    {
      if full {
        r := Window(Inner(a, b, c, d), l);
      } else {
        r := Inner(a.se, b.sw, c.ne, d.nw);
      }
    }
  }
}
