# HashLife in Dafny

This project models the HashLife engine of `hashlife.py` and proves it correct against Conway's Game of Life on the unbounded plane. It covers these parts:

- **Quadtree nodes** (`AbstractNode`, `CellNode`, `Node`). A node is either a cell or four children of one level less. Its level and population are computed from it. `zero(k)` builds the all-dead node, and `extend()` puts a node in the middle of a node one level larger.
- **The level-2 base case.** `create_mask` packs the 16 cells of a level-2 node into a 16-bit mask. `level2_bitmask` counts neighbours with masks and clears the lowest set bit in a loop. `round2` applies the rule to one cell.
- **forward(l)**, with its memo table. It advances the centre of a node of level L by 2^l generations, for l ≤ L − 2, by recursing on nine overlapping windows.
- **HashLifeUniverse**:
  - `load` builds a root from an n × m grid centred on the origin;
  - `peripheral_band` and `check_empty` test the outer ring of grandchildren;
  - `extend(k)` pads the root;
  - `rounds(n)` splits n into bits and forwards the root once per set bit;
  - `round()` is `rounds(1)`.
- **NaiveUniverse**, the reference simulator on a bounded board: `alive_neighbors`, `round`, `get`, and the inherited `Universe.rounds`.

## Modules

- `Counting` and `Life` (counting.dfy, life.dfy) are the reference.
  - They count live cells in rectangles of a plane `(int, int) -> bool`.
  - They define the Life rule `Next`, one generation `Step` and t generations `Iter`.
  - They prove that dead regions stay dead and that live cells spread by at most one cell per generation.
- `Wrappers` (wrappers.dfy) holds `Option`, Python's `None` or a value.
- `Quadtree` (quadtree.dfy) defines the nodes.
  - Equality of the datatype stands for the hash-consing registry, which makes equal nodes one object.
  - `At(x, y)` reads a cell, with x growing east and y north from the south-west corner.
- `BaseCase` (basecase.dfy) covers the mask, the popcount loop, `level2_bitmask` and `round2`, each proved against the Life rule.
- `Forward` (forward.dfy) holds `forward` in two forms:
  - `Advance`, a pure function;
  - the class `Engine`, the method with its memo table.
- `ForwardLife` (forwardlife.dfy) proves that `forward` is the Life rule.
- `Universe` (universe.dfy) covers `load`, the band, and `extend`.
  - A root of level L ≥ 1 stands for the world square [−2^(L−1), 2^(L−1))².
  - `World(root)` is that plane.
- `WorldLife` (worldlife.dfy) states `forward` and the band test in world coordinates.
- `HashLife` (hashlife.py's `HashLifeUniverse`, in hashlife.dfy) holds the class with `extend`, `rounds` and `round`, and the corrected `rounds`.
- `Naive` (naive.dfy) holds `NaiveUniverse`.
- `RoundsFindings` (findings.dfy) shows the two discrepancies listed under Findings on concrete roots.

Where the code's own intent and the code disagree, the model follows the code:

- `peripheral_band` lists `nw.ne` twice and never `ne.ne`, although its name promises the whole peripheral band of twelve outer grandchildren.
- `rounds` calls `forward(i)` on a root padded only until its outer ring is dead, so live cells may reach the edge of the middle half, which is all that `forward` returns; cells born beyond it are lost inside `forward` itself, although the docstring promises the n next generations of the universe. The corrected step extends once more before `forward(i)`.

Both are listed under Findings.

## Model

| member | source | states |
|---|---|---|
| Quadtree.Zero | hashlife.py:141-151 | the node of level k is valid, has level k and population 0 |
| Quadtree.BuildZero | hashlife.py:141-151 | zero's loop (a dead cell wrapped k times in a node of four copies) returns exactly the all-dead node of level k, including k = 0 |
| Quadtree.ZeroIsDead | hashlife.py:141-151 | no cell of zero(k) is alive, inside or outside its square |
| Quadtree.Node.Extend | hashlife.py:159-172 | extend returns a valid node one level higher with the same population |
| Quadtree.ExtendPlacement | hashlife.py:162-172 | a cell is placed as the ne child of a node with three dead cells; above level 0 the old children sit at the inner corners of four new children padded with zero(L−1), and the twelve outer grandchildren are the dead node |
| Quadtree.ExtendCentres | hashlife.py:159-161 | the central area of the extended node equals the node: cell (x, y) of extend() is cell (x − 2^(L−1), y − 2^(L−1)) of the node, for every x, y |
| Quadtree.ExtendQuadrant | hashlife.py:165-172 | inside the new square, each of the four new children shows the matching quarter of the node shifted to the centre |
| Quadtree.PopulationIsLiveCount | hashlife.py:283-296 | the population a node stores (the sum of its children's) is the number of live cells in its square |
| Quadtree.PopulationZeroIffDead | hashlife.py:283-296 | population 0 exactly when no cell of the node is alive |
| Quadtree.PopulationBound | hashlife.py:279-292 | a valid node holds at most one live cell per cell of its square: population ≤ side² |
| Quadtree.SideOfInner | hashlife.py:287 | an interior node is one level above its children, so its side is twice theirs and its four children have one side |
| BaseCase.ClearLowestBit | hashlife.py:312-314 | m & (m − 1) has exactly one set bit fewer than m, for m ≠ 0 |
| BaseCase.PopCount | hashlife.py:311-314 | the clear-lowest-bit loop returns the number of set bits of the mask |
| BaseCase.CreateMask | hashlife.py:185-193 | bit 15 − j of the mask is set exactly when the j-th of the sixteen grandchildren (row by row from the north-west) is alive |
| BaseCase.CountB5 | hashlife.py:308-309 | mask & 0b0000011101010111 counts exactly the eight neighbours of bit 5 (the south-east centre cell) |
| BaseCase.CountB6 | hashlife.py:322-323 | mask & 0b0000111010101110 counts exactly the eight neighbours of bit 6 |
| BaseCase.CountB9 | hashlife.py:335-336 | mask & 0b0111010101110000 counts exactly the eight neighbours of bit 9 |
| BaseCase.CountB10 | hashlife.py:348-349 | mask & 0b1110101011100000 counts exactly the eight neighbours of bit 10 (the north-west centre cell) |
| BaseCase.CentreCellOf | hashlife.py:308-319 | one block of level2_bitmask: the cell is alive exactly when the masked count is 3, or it is 2 and the cell's own bit is set |
| BaseCase.Level2Bitmask | hashlife.py:306-361 | level2_bitmask returns the node of the four centre cells (bits 10, 9, 6, 5 as nw, ne, sw, se) |
| BaseCase.Level2IsNextCentre | hashlife.py:175-183 | on the mask of a level-2 node, level2_bitmask gives the same node as round2 applied to each centre cell and its eight neighbours |
| BaseCase.Round2IsStep | hashlife.py:175-183 | round2 of a cell and its eight neighbours is the Life rule at that cell of any plane holding them |
| BaseCase.Round2 | hashlife.py:175-183 | round2 returns a cell; a live result has 2 or 3 live neighbours; a dead centre comes alive exactly with 3, a live one stays alive exactly with 2 or 3 |
| BaseCase.NextCentreIsLifeStep | hashlife.py:206-215 | the level-2 case is a valid level-1 node whose four cells are one Life generation of the node's centre 2 × 2 block |
| BaseCase.NextCentre | hashlife.py:208-212 | the four round2 calls on a level-2 node give a valid level-1 node |
| Forward.Clamp | hashlife.py:195-197 | the result is at most L − 2; an absent exponent or one above L − 2 becomes L − 2; any other is kept |
| Forward.WinNW | hashlife.py:232 | the north-west window (the nw child) is a valid node one level below |
| Forward.WinTC | hashlife.py:233 | the top-centre window is a valid node one level below |
| Forward.WinNE | hashlife.py:234 | the north-east window is a valid node one level below |
| Forward.WinCL | hashlife.py:235 | the centre-left window is a valid node one level below |
| Forward.WinCC | hashlife.py:236 | the centre window is a valid node one level below |
| Forward.WinCR | hashlife.py:237 | the centre-right window is a valid node one level below |
| Forward.WinSW | hashlife.py:238 | the south-west window is a valid node one level below |
| Forward.WinBC | hashlife.py:239 | the bottom-centre window is a valid node one level below |
| Forward.WinSE | hashlife.py:240 | the south-east window is a valid node one level below |
| Forward.Combine | hashlife.py:231-244 | the nine-window recursion on a node of level L ≥ 3 gives a valid node of level L − 1 |
| Forward.Assemble | hashlife.py:241-244 | the four groups of window results form a valid node one level above the results |
| Forward.Group | hashlife.py:241-244 | one quadrant of the result (forwarded again at the largest exponent, centre grandchildren otherwise) is a valid node of the results' level |
| Forward.Fwd | hashlife.py:195-205 | forward above level 0 has no result exactly for a live level-1 node; any result is a valid node one level below |
| Forward.Advance | hashlife.py:195-251 | forward on a node of level L ≥ 2 returns a valid node of level L − 1 |
| Forward.ForwardDead | hashlife.py:202-203 | a node of population 0 gives zero(L − 1), for every exponent |
| Forward.ForwardLevel1 | hashlife.py:204-205 | a live level-1 node gives None |
| Forward.ForwardLevel2 | hashlife.py:206-215 | a live level-2 node gives the next generation of its centre |
| Forward.ForwardAbove2 | hashlife.py:231-244 | a live node above level 2 gives the nine-window recursion at the clamped exponent |
| Forward.ForwardIsAdvance | hashlife.py:195-251 | above level 1 forward always has a result: the pure recursion at the clamped exponent |
| Forward.AdvanceCases | hashlife.py:200-244 | for an exponent ≤ L − 2: dead node gives zero, level 2 gives the base case, above gives the recursion |
| Forward.AdvanceClamp | hashlife.py:196-197 | forward with an exponent above L − 2 is forward with L − 2 |
| Forward.Level2Step | hashlife.py:214-215 | create_mask followed by level2_bitmask gives the next generation of the centre |
| Forward.Engine.constructor | hashlife.py:79-81 | a new node has an empty cache |
| Forward.Engine.Forward | hashlife.py:195-251 | forward with its cache returns what the pure forward returns, keeps every cached entry correct, never drops an entry, and afterwards holds the result of a live node above level 2 under its clamped exponent |
| Forward.Engine.ForwardLive | hashlife.py:204-251 | the uncached computation: same result, and the result is stored under (node, exponent) when the level is above 2 |
| Forward.Engine.CombineOf | hashlife.py:231-244 | the nine windows forwarded and the four groups assembled give the recursion's result |
| Forward.Engine.AssembleOf | hashlife.py:241-244 | assembling with the cache gives Assemble's node, keeps the cache correct and never drops an entry |
| Forward.Engine.Window | hashlife.py:232-240 | forwarding one window with the cache gives Advance of the window, keeps the cache correct and never drops an entry |
| Forward.Engine.GroupOf | hashlife.py:241-244 | one group with the cache gives Group's node, keeps the cache correct and never drops an entry |
| ForwardLife.DeadShows | hashlife.py:202-203 | a dead node's answer, zero(L − 1), is the centre of its square any number of generations later |
| ForwardLife.BaseShows | hashlife.py:206-215 | a level-2 node showing a 4 × 4 square of a plane gives the centre 2 × 2 of the next generation |
| ForwardLife.ShowsWindows | hashlife.py:232-240 | the nine windows of a node show the nine overlapping squares of half its side, offset by quarter sides |
| ForwardLife.NineWindowsShow | hashlife.py:232-240 | each forwarded window shows the middle of its square min(l, L − 3)-exponent generations later |
| ForwardLife.PartAssembleShows | hashlife.py:243-244 | below the largest exponent, the inner quadrants of the nine results assemble into the centre of the whole square |
| ForwardLife.FullShows | hashlife.py:241-242 | at the largest exponent, forwarding the four groups of window results again shows the centre a further 2^(L−3) generations on |
| ForwardLife.GroupsCombineShows | hashlife.py:241-242 | the two half-steps of the largest exponent add up to 2^(L−2) generations |
| ForwardLife.CombineFullShows | hashlife.py:241-242 | the recursion at l = L − 2 gives the centre of the square 2^(L−2) generations later |
| ForwardLife.CombinePartShows | hashlife.py:243-244 | the recursion at l < L − 2 gives the centre of the square 2^l generations later (one generation for l ≤ 0) |
| ForwardLife.AdvanceShows | hashlife.py:195-251 | forward is the Life rule: a node of level L showing a square of side 2^L of a plane returns the node showing the middle square of side 2^(L−1), 2^l generations later |
| ForwardLife.ClampedShows | hashlife.py:195-197 | for any exponent, forward shows the middle square after the number of generations of the clamped exponent |
| Universe.CeilLog2 | hashlife.py:374 | the least k with 2^k ≥ v, computed exactly (2^k ≥ v, and 2^(k−1) < v when k > 0) |
| Universe.Create | hashlife.py:386-398 | create(i, j, level) returns a node of that level |
| Universe.CreateValid | hashlife.py:386-398 | the node create builds is a valid quadtree |
| Universe.CreateCell | hashlife.py:386-398 | cell (x, y) of the created square is get at (i − o + x, j − o + y), o being 2^(L−1) (0 at level 0): create lays get out around (i, j) without gaps or overlaps |
| Universe.CreateOutside | hashlife.py:386-398 | outside its square the created node is dead |
| Universe.CreateWorld | hashlife.py:386-400 | the root created around the origin stands for get on its square and for dead cells elsewhere |
| Universe.GridFits | hashlife.py:374-384 | every live grid cell lies inside the square of a root whose side holds both grid dimensions |
| Universe.LoadRoot | hashlife.py:373-400 | load returns a valid root of level ceil(log2(max(1, n, m))) |
| Universe.LoadPopulation | hashlife.py:373-400 | the loaded root's population is the number of live cells of the grid |
| Universe.LoadWorld | hashlife.py:373-400 | the loaded root stands for the grid, its cell (n // 2, m // 2) at the origin, and for nothing else |
| Universe.CreateGridWorld | hashlife.py:379-398 | the root created from the grid's get at any level whose side holds the grid stands for the grid |
| Universe.ExtendWorld | hashlife.py:159-172 | extending a root does not change the world it stands for |
| Universe.ExtendCellWorld | hashlife.py:162-163 | the same for a level-0 root |
| Universe.ExtendInnerWorld | hashlife.py:164-172 | the same for a root of level ≥ 1 |
| Universe.Band | hashlife.py:418-419 | peripheral_band as written: twelve entries, all outer grandchildren of the root, with nw.ne twice |
| Universe.ExtendedBandEmpty | hashlife.py:418-426 | after one extension of a root of level ≥ 1 the band is empty |
| Universe.RingEmpty | hashlife.py:418-426 | a root whose outer ring of grandchildren is the dead node passes both band checks |
| Universe.ExtendUntil | hashlife.py:428-435 | extend(k) stops at a root of level ≥ max(k, 2) with an empty band; it returns the root unchanged when that already holds, and a higher one otherwise |
| Universe.ExtendUntilWorld | hashlife.py:428-435 | extend(k) changes neither the world nor the population |
| Universe.BandFixed | hashlife.py:418-419 | the corrected band: the twelve outer grandchildren, ne.ne included |
| Universe.ExtendedBandFixedEmpty | hashlife.py:418-426 | the corrected band of an extended root is empty |
| Universe.ExtendUntilFixed | hashlife.py:428-435 | extend(k) with the corrected band stops at a padded root, unchanged when already padded |
| Universe.ExtendUntilFixedWorld | hashlife.py:428-435 | the corrected extend changes neither the world nor the population |
| WorldLife.AdvanceWorldInside | hashlife.py:195-251 | inside the square forward's result covers, its world is 2^l generations of the root's world |
| WorldLife.AdvanceWorldOutside | hashlife.py:195-251 | outside that square forward's result stands for dead cells |
| WorldLife.AdvanceWorld | hashlife.py:195-251 | a root whose world lives in the middle half of its square forwards to exactly 2^l generations of its world, everywhere |
| WorldLife.ShowsPopulation | hashlife.py:421-426 | a node showing a square is empty exactly when the square is dead |
| WorldLife.QuadPopulations | hashlife.py:421-426 | each child of a node showing a square is empty exactly when its quarter is dead |
| WorldLife.BandFixedRing | hashlife.py:418-426 | the corrected band is empty exactly when the twelve border squares of the root's square are dead |
| WorldLife.BandFixedIff | hashlife.py:418-426 | the corrected band check passes exactly when the world is dead outside the middle half of the root's square (both directions) |
| WorldLife.ExtendSame | hashlife.py:159-172 | an extended root stands for the same plane |
| WorldLife.ExtendUntilSame | hashlife.py:428-435 | extend(k) as written stands for the same plane |
| WorldLife.ExtendUntilFixedSame | hashlife.py:428-435 | the corrected extend stands for the same plane |
| HashLife.BinDigitsReversed | hashlife.py:439-442 | reading the digits of bin(n) after "0b", each prepended, gives the bits of n, least significant first |
| HashLife.Bin | hashlife.py:439 | bin(n) is "0b" followed by binary digits only; the first digit is 1 exactly when n > 0 |
| HashLife.BinDigits | hashlife.py:439 | the digits of bin(n): at least one, each 0 or 1, a leading 1 exactly when n > 0, and just "0" exactly when n = 0 |
| HashLife.BitsValue | hashlife.py:439-442 | that list holds only 0s and 1s and stands for n |
| HashLife.BitList | hashlife.py:439-442 | the first loop of rounds returns the bits of n, least significant first |
| HashLife.CheckEmpty | hashlife.py:421-426 | check_empty returns true exactly when every node of the list has population 0 |
| HashLife.RoundStep | hashlife.py:444-450 | one set bit i as written: the root comes out valid and at least at level i + 1 |
| HashLife.RoundStepIsPadThenAdvance | hashlife.py:445-450 | a set bit i pads the root for exponent i + 2 and forwards it by 2^i; the result is one level below the padded root |
| HashLife.PreExtendRedundant | hashlife.py:446-449 | the extra extension of a root below level 2 changes nothing that extend(i + 2) would not do anyway |
| HashLife.RunBits | hashlife.py:444-450 | the second loop of rounds as written keeps the root valid |
| HashLife.RoundStepFixed | hashlife.py:444-450 | the corrected step for bit i (pad with the corrected band, extend once more, forward) returns a valid root of level ≥ i + 2 |
| HashLife.RunBitsFixed | hashlife.py:444-450 | the corrected second loop keeps the root valid |
| HashLife.PaddedAdvance | hashlife.py:433-450 | a root padded with the corrected band and extended once more forwards to exactly 2^i generations of its world |
| HashLife.PaddingFixedSame | hashlife.py:446-449 | the corrected padding leaves the world unchanged |
| HashLife.RoundStepFixedWorld | hashlife.py:444-450 | the corrected step moves the world on exactly 2^i generations |
| HashLife.ValuePrefix | hashlife.py:444-445 | the first k bits stand for the first k − 1 plus 2^(k−1) times bit k − 1 |
| HashLife.RunBitsFixedSetBit | hashlife.py:444-450 | a set bit applies the corrected step to the root the earlier bits left |
| HashLife.SetBitWorld | hashlife.py:444-450 | a set bit k − 1 moves the world on 2^(k−1) generations more |
| HashLife.RunBitsFixedWorld | hashlife.py:444-450 | after the first k bits the corrected loop's root stands for Value(first k bits) generations of the starting world |
| HashLife.RoundsFixedWorld | hashlife.py:437-451 | the corrected rounds(n) moves the world on exactly n generations |
| HashLife.HashLifeUniverse.FromRoot | hashlife.py:364-370 | HashLifeUniverse(root) holds that root at generation 0, with a fresh forward cache |
| HashLife.HashLifeUniverse.Load | hashlife.py:364-370 | HashLifeUniverse(n, m, cells) holds load's root at generation 0 |
| HashLife.HashLifeUniverse.Extend | hashlife.py:428-435 | the loop replaces the root by its extension until padded; the result is ExtendUntil of the old root, and the generation is unchanged |
| HashLife.HashLifeUniverse.RoundBit | hashlife.py:445-450 | one set bit: extend below level 2, extend(i + 2), forward(i) |
| HashLife.HashLifeUniverse.ForwardRoot | hashlife.py:450 | the root is replaced by its forward(i) |
| HashLife.HashLifeUniverse.Rounds | hashlife.py:437-451 | rounds(n) leaves the root the as-written loop computes over the bits of n and adds n to the generation |
| HashLife.HashLifeUniverse.ExtendFixed | hashlife.py:428-435 | extend with the corrected band |
| HashLife.HashLifeUniverse.RoundBitFixed | hashlife.py:445-450 | one set bit with the corrected padding |
| HashLife.HashLifeUniverse.RoundsFixed | hashlife.py:437-451 | the corrected rounds(n): the new root stands for exactly n generations of the old world, and the generation grows by n |
| HashLife.HashLifeUniverse.Round | hashlife.py:414-416 | round() is rounds(1): one set bit 0, and the generation grows by 1 |
| Naive.CountBox | hashlife.py:47-50 | the double loop of alive_neighbors counts the live cells of the box |
| Naive.BoardBoxIsBoxCount | hashlife.py:47-50 | the board's box count is the live count of the board's plane, dead off the board |
| Naive.ClampedBox | hashlife.py:40-50 | the 3 × 3 box around (i, j), clamped to the board, holds the cell and its live neighbours |
| Naive.NextBoard | hashlife.py:55-70 | one round keeps the board n × m |
| Naive.NextBoardIsStep | hashlife.py:55-70 | a round of the board is one Life step of its plane, cut back to the board |
| Naive.CountsGiveNextBoard | hashlife.py:64-70 | updating each cell from the precomputed counts (born with 3; survives with 2 or 3) gives the next board |
| Naive.IterBoard | hashlife.py:25-28 | t rounds keep the board n × m |
| Naive.PyIndex | hashlife.py:72-74 | Python indexing: an index in [−n, n) gives a position in range, the index itself or the index + n; any other raises |
| Naive.NaiveUniverse.constructor | hashlife.py:33-36 | the universe holds the sizes and the board it was given |
| Naive.NaiveUniverse.AliveNeighbors | hashlife.py:38-53 | alive_neighbors returns the number of live neighbours of (i, j) on the board, between 0 and 8 |
| Naive.NaiveUniverse.NeighbourCounts | hashlife.py:57-62 | round's first pass is the table of every cell's live neighbours |
| Naive.NaiveUniverse.Round | hashlife.py:55-70 | round replaces the board by the next board and keeps its sizes |
| Naive.NaiveUniverse.Rounds | hashlife.py:25-28 | rounds(t) is t rounds |
| Naive.NaiveUniverse.Get | hashlife.py:72-74 | get returns a cell exactly for Python-valid indices, and the board's cell for in-range ones |
| RoundsFindings.BandMissesCorner | hashlife.py:418-419 | a level-2 root with its only live cell at ne.ne passes the band check as written, although its world has a live cell outside the middle half; the corrected band rejects it |
| RoundsFindings.RoundLosesCell | hashlife.py:444-450 | a padded level-3 root with a blinker: one Life generation makes cell (0, 2) alive, rounds(1) as written leaves it dead, and the corrected step keeps it |
| RoundsFindings.BlinkerLosesCell | hashlife.py:444-450 | on the concrete blinker root: one Life generation makes cell (0, 2) alive, rounds(1) as written leaves it dead, the corrected step keeps it |
| RoundsFindings.RoundAsWrittenAt | hashlife.py:414-416 | round() as written on a padded level-3 root keeps no live cell outside [−2, 2)² |
| RoundsFindings.OneStepFixedAt | hashlife.py:414-416 | the corrected round() is one Life generation at every cell |

## Left out

- The hash-consing registry (`HC`, `hc`, `canon`, weak references) and `__hash__`/`__eq__` are left out. Nodes are values, and equality of values is the identity the registry provides.
- The per-node `_cache` dictionary is modelled as one map in `Forward.Engine`, keyed by (node, exponent). The source's table is keyed by node identity, which is the same because of hash-consing. Sharing one engine between universes is left out.
- `print` calls in `level2_bitmask` are left out: they are output only.
- `load` uses the floating-point `math.ceil(math.log(v, 2))`. The model uses the exact `CeilLog2`. Floating-point rounding at large exact powers of two is not modelled.
- `HashLifeUniverse.get` has a commented-out body and returns `None`, so it is left out.
- `forward` on a level-0 node reads attributes a `CellNode` does not have, so the model requires level ≥ 1.
- `rounds` with a negative n makes `int('b')` raise before any state changes. The model takes n: nat.
- Naive.NaiveUniverse.Rounds: takes t: nat. The inherited `Universe.rounds` with a negative n is a silent no-op, because `range(n)` is empty; that case is not modelled.
- `AbstractNode.round2`'s reading of `_alive` on non-cells cannot happen in the model, because its arguments are always cells.
- `NaiveUniverse` shares the caller's list of rows. Aliasing and the in-place row updates are modelled by reassigning a `seq<seq<bool>>` field.
- Naive.NaiveUniverse.constructor: requires exactly n rows of exactly m cells. The source also accepts extra rows and longer rows; `round` updates only the first m cells of the first n rows in place, and `get` can still read the cells beyond them. Those untouched extra cells are not modelled.
- Naive.NaiveUniverse.Get: the IndexError is modelled as `None`.
- Naive.NaiveUniverse.AliveNeighbors: requires 0 ≤ i < n and 0 ≤ j < m. The only caller, `round`, passes such indices.
- The abstract base class `Universe` (hashlife.py:16-28) is not a class of its own. Its `rounds` loop is modelled in Naive.NaiveUniverse.Rounds, and HashLifeUniverse overrides it.
- HashLife.ValuePrefix: states the step for bit values 0 and 1 only. These are the only values `rounds`' list holds (HashLife.BitsValue).
- HashLife.HashLifeUniverse.Rounds: states the as-written root, not a Life property, because the as-written code does not have one (Findings). The corrected `RoundsFixed` carries the Life property.

## Findings

| source | as written | input that shows it | evidently intended | confidence | as-written member | corrected member |
|---|---|---|---|---|---|---|
| hashlife.py:418-419 | `peripheral_band` lists `root.nw.ne` twice and never `root.ne.ne` | a level-2 root whose only live cell is its north-east corner, world cell (1, 1) | the twelve outer grandchildren, so an empty band means the world is dead outside the middle half | not executed | Universe.Band, RoundsFindings.BandMissesCorner | Universe.BandFixed, WorldLife.BandFixedIff |
| hashlife.py:444-450 | `rounds` forwards a root padded only up to an empty outer ring; the result covers just the middle half, so cells born at its border are lost | a level-3 root holding a horizontal blinker at world cells (−1, 1), (0, 1), (1, 1), then `rounds(1)` | extend once more before `forward(i)`, so the pattern fits in the quarter the result keeps | not executed | HashLife.RoundStep, RoundsFindings.RoundLosesCell, RoundsFindings.BlinkerLosesCell | HashLife.RoundStepFixed, HashLife.RoundsFixedWorld |
