/** HashLifeUniverse (hashlife.py): the root of a pattern, a generation
    counter, and the forward engine with its memo table.

    `extend(k)` grows the root until it is padded for an exponent k; `rounds(n)`
    writes n in binary and, for each set bit i from the least significant,
    pads the root and forwards it 2^i generations. */
module HashLife {
  import opened Quadtree
  import opened Forward
  import opened Wrappers
  import opened Universe
  import opened Life
  import opened ForwardLife
  import opened WorldLife

  /** The digit character of a bit. */
  function DigitChar(b: nat): char
  {
    if b == 0 then '0' else '1'
  }

  /** int() of a binary digit character. */
  function DigitValue(c: char): nat
  {
    if c == '1' then 1 else 0
  }

  /** The binary digits of n, most significant first, without leading
      zeros ("0" for zero). */
  function BinDigits(n: nat): (s: seq<char>)
    ensures |s| >= 1
    ensures forall k :: 0 <= k < |s| ==> s[k] == '0' || s[k] == '1'
    ensures s[0] == '1' <==> n > 0
    ensures s == ['0'] <==> n == 0
    decreases n
  {
    if n < 2 then [DigitChar(n)] else BinDigits(n / 2) + [DigitChar(n % 2)]
  }

  /** bin(n) for n >= 0. */
  function Bin(n: nat): (s: string)
    ensures |s| >= 3 && s[0] == '0' && s[1] == 'b'
    ensures forall k :: 2 <= k < |s| ==> s[k] == '0' || s[k] == '1'
    ensures s[2] == '1' <==> n > 0
  {
    "0b" + BinDigits(n)
  }

  /** The digit values of a digit string, last digit first: what rounds'
      first loop builds by prepending each digit in turn. */
  function ValuesReversed(cs: seq<char>): (l: seq<nat>)
  {
    if |cs| == 0 then [] else [DigitValue(cs[|cs| - 1])] + ValuesReversed(cs[..|cs| - 1])
  }

  /** The bits of n, least significant first. */
  function Bits(n: nat): (b: seq<nat>)
    decreases n
  {
    if n < 2 then [n] else [n % 2] + Bits(n / 2)
  }

  /** The number a list of bits stands for, least significant first. */
  function Value(b: seq<nat>): nat
  {
    if |b| == 0 then 0 else b[0] + 2 * Value(b[1..])
  }

  /** The bit list of n is a list of 0s and 1s that stands for n. */
  lemma {:induction false} BitsValue(n: nat)
    ensures forall i :: 0 <= i < |Bits(n)| ==> Bits(n)[i] <= 1
    ensures Value(Bits(n)) == n
    decreases n
  {
    if n >= 2 {
      BitsValue(n / 2);
      assert Bits(n)[1..] == Bits(n / 2);
    }
  }

  /** Reading bin(n) digit by digit after the "0b" prefix, prepending each,
      gives the bits of n, least significant first. */
  lemma {:induction false} BinDigitsReversed(n: nat)
    ensures ValuesReversed(BinDigits(n)) == Bits(n)
    decreases n
  {
    if n >= 2 {
      var s := BinDigits(n);
      assert s[..|s| - 1] == BinDigits(n / 2);
      BinDigitsReversed(n / 2);
    }
  }

  /** The generations one set bit i of rounds moves the root on by. */
  function RoundStep(r: Node, i: nat): (s: Node)
    requires r.Valid()
    ensures s.Valid() && s.Level() >= i + 1
  {
    var r1 := if r.Level() < 2 then r.Extend() else r;
    var e := ExtendUntil(r1, i + 2);
    Advance(e, i)
  }

  /** The root after rounds' second loop has gone through the first k
      bits of l. */
  function RunBits(r: Node, l: seq<nat>, k: nat): (s: Node)
    requires r.Valid() && k <= |l|
    ensures s.Valid()
  {
    if k == 0 then r
    else
      var s := RunBits(r, l, k - 1);
      if l[k - 1] == 1 then RoundStep(s, k - 1) else s
  }

  /** One set bit i handled as evidently intended: pad the root with the
      corrected band for exponent i + 2, extend it once more so that the
      pattern sits in the middle half of the square forward returns, then
      forward it 2^i generations. */
  function RoundStepFixed(r: Node, i: nat): (s: Node)
    requires r.Valid()
    ensures s.Valid() && s.Level() >= i + 2
  {
    var r1 := if r.Level() < 2 then r.Extend() else r;
    var e := ExtendUntilFixed(r1, i + 2).Extend();
    Advance(e, i)
  }

  /** rounds' second loop with the corrected step. */
  function RunBitsFixed(r: Node, l: seq<nat>, k: nat): (s: Node)
    requires r.Valid() && k <= |l|
    ensures s.Valid()
  {
    if k == 0 then r
    else
      var s := RunBitsFixed(r, l, k - 1);
      if l[k - 1] == 1 then RoundStepFixed(s, k - 1) else s
  }

  /** A root padded with the corrected band for exponent i + 2 and
      extended once more advances as the Life rule does. */
  lemma PaddedAdvance(e0: Node, i: nat)
    requires e0.Valid() && PaddedFixed(e0, i + 2)
    ensures Same(World(Advance(e0.Extend(), i)), Iter(World(e0.Extend()), Gens(i)))
  {
    var e := e0.Extend();
    var lp := e0.Level();
    var q: int := Pow2(lp - 2);
    BandFixedIff(e0, lp, q);
    ExtendSame(e0);
    SameDeadOutside(World(e), World(e0), -q, q, -q, q);
    assert Pow2(lp + 1 - 3) == q;
    AdvanceWorld(e, lp + 1, i, q);
  }

  /** The padding the corrected step applies leaves the world unchanged. */
  lemma PaddingFixedSame(r: Node, i: nat)
    requires r.Valid()
    ensures var r1 := if r.Level() < 2 then r.Extend() else r;
      Same(World(ExtendUntilFixed(r1, i + 2).Extend()), World(r))
  {
    var r1 := if r.Level() < 2 then r.Extend() else r;
    var e0 := ExtendUntilFixed(r1, i + 2);
    ExtendSame(e0);
    ExtendUntilFixedSame(r1, i + 2);
    if r.Level() < 2 {
      ExtendSame(r);
    }
    SameTrans(World(e0.Extend()), World(e0), World(r1));
    SameTrans(World(e0.Extend()), World(r1), World(r));
  }

  /** The corrected step is the Life rule: the root it returns stands for
      the world of r 2^i generations later. */
  lemma RoundStepFixedWorld(r: Node, i: nat)
    requires r.Valid()
    ensures Same(World(RoundStepFixed(r, i)), Iter(World(r), Pow2(i)))
  {
    var r1 := if r.Level() < 2 then r.Extend() else r;
    var e0 := ExtendUntilFixed(r1, i + 2);
    PaddedAdvance(e0, i);
    PaddingFixedSame(r, i);
    assert Gens(i) == Pow2(i);
    SameIterTransfer(World(RoundStepFixed(r, i)), World(e0.Extend()), World(r), Gens(i));
  }

  /** The value of the first k bits adds bit k - 1 at weight 2^(k-1) to
      the value of the first k - 1. */
  lemma {:induction false} ValuePrefix(l: seq<nat>, k: nat)
    requires 1 <= k <= |l|
    ensures l[k - 1] == 0 ==> Value(l[..k]) == Value(l[..k - 1])
    ensures l[k - 1] == 1 ==> Value(l[..k]) == Value(l[..k - 1]) + Pow2(k - 1)
    decreases k
  {
    if k == 1 {
      assert l[..1][1..] == [] && l[..0] == [];
    } else {
      var t := l[1..];
      ValuePrefix(t, k - 1);
      assert t[k - 2] == l[k - 1];
      assert l[..k][1..] == t[..k - 1];
      assert l[..k - 1][1..] == t[..k - 2];
      assert Value(l[..k]) == l[0] + 2 * Value(t[..k - 1]);
      assert Value(l[..k - 1]) == l[0] + 2 * Value(t[..k - 2]);
      assert Pow2(k - 1) == 2 * Pow2(k - 2);
    }
  }

  /** The corrected second loop of rounds, after the first k bits, stands
      for the world Value(l[..k]) generations on. */
  lemma {:induction false} RunBitsFixedWorld(r: Node, l: seq<nat>, k: nat)
    requires r.Valid() && k <= |l| && forall i :: 0 <= i < |l| ==> l[i] <= 1
    ensures Same(World(RunBitsFixed(r, l, k)), Iter(World(r), Value(l[..k])))
    decreases k
  {
    if k == 0 {
      assert l[..0] == [];
    } else {
      RunBitsFixedWorld(r, l, k - 1);
      ValuePrefix(l, k);
      if l[k - 1] == 1 {
        SetBitWorld(r, l, k);
      } else {
        assert RunBitsFixed(r, l, k) == RunBitsFixed(r, l, k - 1);
      }
    }
  }

  /** A set bit k - 1 moves the world on by 2^(k-1) more generations. */
  lemma SetBitWorld(r: Node, l: seq<nat>, k: nat)
    requires r.Valid() && 1 <= k <= |l| && l[k - 1] == 1
    requires Value(l[..k]) == Value(l[..k - 1]) + Pow2(k - 1)
    requires Same(World(RunBitsFixed(r, l, k - 1)), Iter(World(r), Value(l[..k - 1])))
    ensures Same(World(RunBitsFixed(r, l, k)), Iter(World(r), Value(l[..k])))
  {
    var s := RunBitsFixed(r, l, k - 1);
    RunBitsFixedSetBit(r, l, k);
    RoundStepFixedWorld(s, k - 1);
    SameIterStep(World(RunBitsFixed(r, l, k)), World(RoundStepFixed(s, k - 1)), World(s), World(r),
      Value(l[..k - 1]), Pow2(k - 1), Value(l[..k]));
  }

  /** A set bit k - 1 applies the corrected step to the root after the
      first k - 1 bits. */
  lemma RunBitsFixedSetBit(r: Node, l: seq<nat>, k: nat)
    requires r.Valid() && 1 <= k <= |l| && l[k - 1] == 1
    ensures RunBitsFixed(r, l, k) == RoundStepFixed(RunBitsFixed(r, l, k - 1), k - 1)
  {
  }

  /** rounds(n) with the corrected step moves the world on exactly n
      generations. */
  lemma RoundsFixedWorld(r: Node, n: nat)
    requires r.Valid()
    ensures Same(World(RunBitsFixed(r, Bits(n), |Bits(n)|)), Iter(World(r), n))
  {
    BitsValue(n);
    var b := Bits(n);
    assert b[..|b|] == b;
    RunBitsFixedWorld(r, b, |b|);
  }

  /** The extension rounds makes before extend for a root below level 2
      changes nothing: extend would have made it anyway. */
  lemma PreExtendRedundant(r: Node, k: int)
    requires r.Valid() && r.Level() < 2
    ensures ExtendUntil(r.Extend(), k) == ExtendUntil(r, k)
  {
  }

  /** A set bit i is handled by padding the root for exponent i + 2 and
      advancing it 2^i generations; the root comes out at least one level
      above i and one level below the padded root. */
  lemma RoundStepIsPadThenAdvance(r: Node, i: nat)
    requires r.Valid()
    ensures var e := ExtendUntil(r, i + 2);
      RoundStep(r, i) == Advance(e, i) && e.Level() >= i + 2 && RoundStep(r, i).Level() == e.Level() - 1
  {
    if r.Level() < 2 {
      PreExtendRedundant(r, i + 2);
    }
  }

  /** check_empty: true exactly when every node of the list is dead. */
  method CheckEmpty(p: seq<Node>) returns (t: bool)
    ensures t == AllEmpty(p)
  {
    t := true;
    for i := 0 to |p|
      invariant t == AllEmpty(p[..i])
    {
      if p[i].Population() != 0 {
        t := false;
      }
      assert p[..i + 1] == p[..i] + [p[i]];
    }
    assert p[..|p|] == p;
  }

  /** The first loop of rounds: the digits of bin(n) after its "0b"
      prefix, each prepended in turn, as integers. */
  method BitList(n: nat) returns (l: seq<nat>)
    ensures l == Bits(n)
  {
    var s := Bin(n);
    l := [];
    var i := 2;
    while i < |s|
      invariant 2 <= i <= |s| && l == ValuesReversed(s[2..i])
    {
      assert s[2..i + 1][..i - 2] == s[2..i];
      l := [DigitValue(s[i])] + l;
      i := i + 1;
    }
    assert s[2..i] == BinDigits(n);
    BinDigitsReversed(n);
  }

  class HashLifeUniverse {
    var root: Node
    var generation: nat
    var engine: Engine

    ghost predicate Valid()
      reads this, engine
    {
      root.Valid() && engine.Valid()
    }

    /** HashLifeUniverse(root). */
    constructor FromRoot(r: Node)
      requires r.Valid()
      ensures Valid() && root == r && generation == 0 && fresh(engine)
    {
      root := r;
      generation := 0;
      engine := new Engine();
    }

    /** HashLifeUniverse(n, m, cells): the root loaded from the grid. */
    constructor Load(n: nat, m: nat, cells: seq<seq<bool>>)
      requires IsGrid(n, m, cells)
      ensures Valid() && root == LoadRoot(n, m, cells) && generation == 0 && fresh(engine)
    {
      root := LoadRoot(n, m, cells);
      generation := 0;
      engine := new Engine();
    }

    /** extend(k): replace the root by its extension until it is padded
        for k; the world it stands for does not change. */
    method Extend(k: int)
      requires Valid()
      modifies this
      ensures Valid() && root == ExtendUntil(old(root), k)
      ensures generation == old(generation) && engine == old(engine)
    {
      while true
        invariant Valid() && ExtendUntil(root, k) == ExtendUntil(old(root), k)
        invariant generation == old(generation) && engine == old(engine)
        decreases ExtendBound(root, k)
      {
        if root.Level() >= MinLevel(k) {
          var empty := CheckEmpty(Band(root));
          if empty {
            break;
          }
        }
        ExtendedBandEmpty(root);
        root := root.Extend();
      }
    }

    /** One set bit i of rounds: a root below level 2 is extended once,
        the root is padded for i + 2 and forwarded with exponent i. */
    method RoundBit(i: nat)
      requires Valid()
      modifies this, engine
      ensures Valid() && root == RoundStep(old(root), i)
      ensures generation == old(generation) && engine == old(engine)
    {
      ghost var r0 := root;
      if root.Level() < 2 {
        root := root.Extend();
      }
      Extend(i + 2);
      assert root == ExtendUntil(if r0.Level() < 2 then r0.Extend() else r0, i + 2);
      ForwardRoot(i);
    }

    /** forward(i) on a root of level at least i + 2, which replaces the
        root by its centre advanced 2^i generations. */
    method ForwardRoot(i: nat)
      requires Valid() && root.Level() >= i + 2
      modifies this, engine
      ensures Valid() && root == Advance(old(root), i)
      ensures generation == old(generation) && engine == old(engine)
    {
      var e := root;
      ForwardIsAdvance(e, Some(i));
      AdvanceClamp(e, i);
      var r := engine.Forward(e, Some(i));
      root := r.value;
    }

    /** rounds(n): for each set bit i of n, least significant first, pad the
        root for i + 2 and forward it with exponent i; then count n more
        generations. */
    method Rounds(n: nat)
      requires Valid()
      modifies this, engine
      ensures Valid() && root == RunBits(old(root), Bits(n), |Bits(n)|)
      ensures generation == old(generation) + n && engine == old(engine)
    {
      var l := BitList(n);
      ghost var r0 := root;
      var i := 0;
      while i < |l|
        invariant Valid() && 0 <= i <= |l| && root == RunBits(r0, l, i)
        invariant generation == old(generation) && engine == old(engine)
      {
        ghost var s := root;
        if l[i] == 1 {
          RoundBit(i);
        }
        assert RunBits(r0, l, i + 1) == if l[i] == 1 then root else s;
        i := i + 1;
      }
      assert i == |l|;
      generation := generation + n;
    }

    /** extend(k) with the corrected band. */
    method ExtendFixed(k: int)
      requires Valid()
      modifies this
      ensures Valid() && root == ExtendUntilFixed(old(root), k)
      ensures generation == old(generation) && engine == old(engine)
    {
      while true
        invariant Valid() && ExtendUntilFixed(root, k) == ExtendUntilFixed(old(root), k)
        invariant generation == old(generation) && engine == old(engine)
        decreases ExtendBoundFixed(root, k)
      {
        if root.Level() >= MinLevel(k) {
          var empty := CheckEmpty(BandFixed(root));
          if empty {
            break;
          }
        }
        ExtendedBandFixedEmpty(root);
        root := root.Extend();
      }
    }

    /** One set bit i of rounds, corrected: pad with the corrected band,
        extend once more, forward with exponent i. */
    method RoundBitFixed(i: nat)
      requires Valid()
      modifies this, engine
      ensures Valid() && root == RoundStepFixed(old(root), i)
      ensures generation == old(generation) && engine == old(engine)
    {
      ghost var r0 := root;
      if root.Level() < 2 {
        root := root.Extend();
      }
      ExtendFixed(i + 2);
      assert root == ExtendUntilFixed(if r0.Level() < 2 then r0.Extend() else r0, i + 2);
      root := root.Extend();
      ForwardRoot(i);
    }

    /** rounds(n) with the corrected step: the root stands for the world
        n generations on, and the generation counter has moved on by n. */
    method RoundsFixed(n: nat)
      requires Valid()
      modifies this, engine
      ensures Valid() && root == RunBitsFixed(old(root), Bits(n), |Bits(n)|)
      ensures Same(World(root), Iter(World(old(root)), n))
      ensures generation == old(generation) + n && engine == old(engine)
    {
      var l := BitList(n);
      ghost var r0 := root;
      var i := 0;
      while i < |l|
        invariant Valid() && 0 <= i <= |l| && root == RunBitsFixed(r0, l, i)
        invariant generation == old(generation) && engine == old(engine)
      {
        ghost var s := root;
        if l[i] == 1 {
          RoundBitFixed(i);
        }
        assert RunBitsFixed(r0, l, i + 1) == if l[i] == 1 then root else s;
        i := i + 1;
      }
      assert i == |l|;
      generation := generation + n;
      RoundsFixedWorld(old(root), n);
    }

    /** round(): rounds(1). */
    method Round()
      requires Valid()
      modifies this, engine
      ensures Valid() && root == RoundStep(old(root), 0)
      ensures generation == old(generation) + 1 && engine == old(engine)
    {
      Rounds(1);
    }
  }
}
