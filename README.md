# snac, modelled in Dafny

snac is an engine for cellular automata in any number of dimensions. A
**world** has fixed dimensions and a dense array of cells, one per position,
stored in row-major order. A position is turned into a flat index by
`ravel`, and the index is turned back by `unravel`. Each round of `update`
replaces every cell with what its rule computes from a **view**: a read-only
handle on the world, bound to the cell's position. Through the view a rule
reads any cell, reads cells relative to its own, or walks a **neighbourhood**.
Two neighbourhoods are built in:

- the **Moore** neighbourhood: every cell within `range` on every axis,
  other than the cell itself;
- the **Von Neumann** neighbourhood: every cell within `range` along one
  axis, other than the cell itself.

A neighbourhood can be filtered and counted. `dump` exports the world as
nested arrays, one level per axis.

The Dafny modules follow the three source files:

- `Indexing` (indexing.dfy) is the codec of `World`: `Product`, `Contains`,
  `Ravel` and `Unravel`. It proves that the codec is a bijection.
- `Snapshots` (snapshot.dfy) holds a world's dimensions and cells as a value.
  This is what every view and neighbourhood reads.
- `Neighbourhoods` (neighbourhood.dfy) covers `filter`, `count`,
  `multirange`, Moore and Von Neumann. Each traversal is a sequence-valued
  function. `count` is a loop proved equal to the sequence's length.
- `Views` (views.dfy) is `WorldView`, plus the interior-cell shapes of its
  two neighbourhoods in two dimensions.
- `Grids` (grid.dfy) holds the nested arrays `dump` writes, and the store
  that `dump` performs.
- `Worlds` (world.dfy) is the class `World`. The constructor, `unravel`,
  `update` and `dump` are loops, as in the source. They are proved against
  the functions `InitState`, `Generation` and `Iterate` and the codec.
- `Life` (life.dfy) is Conway's rule as in the engine's game-of-life test.
  It proves that the 3 x 3 blinker turns from horizontal to vertical and
  back.

A cell's `update` is the rule `step(cell, view)`, passed to `Update` as a
parameter. Cells are type parameters and are treated as immutable values.

With dimensions `[5, 3, 4]`, the code and its test (src/World.test.ts:24)
give `ravel([1, 2, 3]) == (1*3+2)*4+3`, which is 23.
`Indexing.RavelExample` proves this value.

## Model

| member | source | states |
|---|---|---|
| Indexing.Product | src/World.ts:32 | the number of cells of valid dimensions is at least 1 |
| Indexing.Contains | src/World.ts:53-55 | holds iff every component of `p` is within its axis; a position shorter than the dimensions passes, and one longer fails |
| Indexing.Ravel | src/World.ts:38-40 | a contained position's index lies in `[0, product(dims))` |
| Indexing.Unravel | src/World.ts:42-51 | an index below the product decodes to a contained position of the right length that encodes back to that index |
| Indexing.UnravelRavel | src/World.ts:38-51 | decoding the index of a position gives the position back |
| Indexing.Bijection | src/World.ts:38-51 | ravel and unravel are mutually inverse bijections between the positions and `[0, product(dims))` |
| Indexing.RavelInjective | src/World.ts:38-40 | two positions with the same index are equal |
| Indexing.RavelShift | src/World.ts:38-40 | the index of `p + o` is the index of `p` plus the index of `o`, for any integers |
| Indexing.RavelPastEdge | src/World.ts:38-40 | the encoding does no bounds check: in a 3 x 3 grid the uncontained `[0, 3]` has index 3, the index of `[1, 0]`, and 3 decodes to `[1, 0]` |
| Indexing.RavelExample | src/World.test.ts:22-30 | in a 5 x 3 x 4 world, `[1, 2, 3]` has index `(1*3+2)*4+3` = 23, and 23 decodes to `[1, 2, 3]` |
| Neighbourhoods.Keep | src/Neighbourhood.ts:13-16 | a filter yields only elements of the input that satisfy the predicate, and yields every such element, never more than the input |
| Neighbourhoods.KeepAppend | src/Neighbourhood.ts:13-16 | filtering a concatenation is filtering each part in turn, so the input order is kept |
| Neighbourhoods.KeepKeep | src/Neighbourhood.ts:7-21 | two chained filters equal one filter by the conjunction |
| Neighbourhoods.FilterTwice | src/Neighbourhood.ts:7-21 | the contract of `filter`: `n.filter(f).filter(g)` yields what `n.filter(x => f(x) && g(x))` yields; a filtered neighbourhood yields exactly the inner cells that satisfy the predicate, and never more than the inner one |
| Neighbourhoods.CellsYielded | src/Neighbourhood.ts:13-60 | a Moore or Von Neumann traversal yields the world's cell at each site it reads, in order, one per site, and reads no more sites than it has candidates; a filtered one yields only cells that pass its predicate |
| Neighbourhoods.Neighbourhood.Count | src/Neighbourhood.ts:23-27 | the counting loop returns the length of one traversal |
| Neighbourhoods.Neighbourhood.Sites | src/Neighbourhood.ts:37-60 | every position a Moore or Von Neumann traversal reads is a position of the world |
| Neighbourhoods.MultirangeMember | src/Neighbourhood.ts:63-75 | a vector is yielded iff it has one component per range, each within its range; an empty range list yields only the empty vector |
| Neighbourhoods.Multirange | src/Neighbourhood.ts:63-75 | the number of vectors is the product of the range widths |
| Neighbourhoods.MultirangeAt | src/Neighbourhood.ts:69-73 | vector `k` has first component `min + k mod width` and tail number `k div width`, so the first component varies fastest |
| Neighbourhoods.MultirangeDistinct | src/Neighbourhood.ts:63-75 | no vector is yielded twice |
| Neighbourhoods.MooreCandidates | src/Neighbourhood.ts:54-57 | every candidate has one component per axis of the centre |
| Neighbourhoods.MooreCandidate | src/Neighbourhood.ts:55-57 | a position is a candidate iff it is within `range` of the centre on every axis and is not the centre |
| Neighbourhoods.MooreSites | src/Neighbourhood.ts:54-60 | Moore reads a position iff the world contains it, it is not the centre, and it is within `range` on every axis |
| Neighbourhoods.MooreCount | src/Neighbourhood.ts:54-60 | Moore reads at most `(2 range + 1)^n - 1` positions |
| Neighbourhoods.MooreRangeZero | src/Neighbourhood.ts:54-60 | Moore of range 0 reads nothing |
| Neighbourhoods.StarCandidates | src/Neighbourhood.ts:37-41 | from axis `i` on, there are two candidates for each distance from 1 to `range` on each axis, each with one component per axis |
| Neighbourhoods.StarCandidate | src/Neighbourhood.ts:38-41 | from axis `i` on, a position is a candidate iff it moves the centre along one such axis by 1 to `range` |
| Neighbourhoods.VonNeumannSites | src/Neighbourhood.ts:37-46 | Von Neumann reads a position iff the world contains it and it differs from the centre on exactly one axis, by 1 to `range` |
| Neighbourhoods.VonNeumannCount | src/Neighbourhood.ts:37-46 | Von Neumann reads at most `2 n range` positions |
| Neighbourhoods.CentreExcluded | src/Neighbourhood.ts:39 | neither neighbourhood reads its own centre |
| Views.WorldView.Dimensions | src/WorldView.ts:11-13 | the dimensions of a consistent world are positive and account for every one of its cells |
| Views.GetCellIndex | src/WorldView.ts:15-17 | `getCell` reaches every cell: the position that index `i` decodes to reads cell `i` |
| Views.WorldView.GetRelative | src/WorldView.ts:19-22 | with no bounds check on the moved position, any move whose index falls among the cells is read; the cell read lies at the index of the view's position plus the index of the offset; a move that stays inside the world reads that position's cell |
| Views.RelativePastEdge | src/WorldView.ts:19-22 | a move past a row's edge reads into the next row: in a 3 x 3 world the view at `[0, 2]` moved by `[0, 1]` reaches the uncontained `[0, 3]` and reads cell 3, the cell of `[1, 0]` |
| Views.ViewMoore | src/WorldView.ts:37-39 | `moore(range)` reads exactly the world's positions other than the view's that lie within `range` of it on every axis |
| Views.ViewVonNeumann | src/WorldView.ts:54-56 | `vonNeumann(range)` reads exactly the world's positions one move of 1 to `range` along a single axis away from the view's |
| Views.RelativeZero | src/WorldView.ts:19-22 | a zero offset reads the view's own cell |
| Views.RelativeCompose | src/WorldView.ts:19-22 | moving by `a` and then, from a view there, by `b` reads the same cell as moving by `a + b` |
| Views.UnitSquare | src/Neighbourhood.ts:63-75 | the offsets of `[-1,1]^2` come in multirange order, first axis fastest |
| Views.UnitMoore | src/Neighbourhood.ts:54-57 | the range-1 Moore candidates of a 2-D position are its eight surrounding positions, in multirange order |
| Views.MooreInterior | src/WorldView.ts:24-39 | `moore()` of an interior cell of a 2-D world reads exactly the eight surrounding cells, in multirange order |
| Views.UnitStar | src/Neighbourhood.ts:38-44 | the range-1 Von Neumann candidates of a 2-D position are left then right on the first axis, then on the second |
| Views.VonNeumannInterior | src/WorldView.ts:41-56 | `vonNeumann()` of an interior cell of a 2-D world reads exactly the four orthogonal neighbours, in that order |
| Grids.PutShaped | src/World.ts:76-80 | a store at a position keeps the nested arrays within the dimensions |
| Grids.PutAtSame | src/World.ts:76-80 | after a store, its position reads the stored value |
| Grids.PutAtOther | src/World.ts:76-80 | a store changes no other position |
| Grids.Determined | src/World.ts:71-83 | shaped nested arrays that hold a value at every position are determined by those values |
| Worlds.InitState | src/World.ts:32-33 | the initial state has `product(dims)` cells, and the cell at a position's index is `init` of that position |
| Worlds.Generation | src/World.ts:67 | one round keeps the length, and the new cell at every position is `step` of the old cell and a view of the state before the round |
| Worlds.IterateAdd | src/World.ts:65-69 | `a` rounds followed by `b` rounds are `a + b` rounds |
| Worlds.IterateNext | src/World.ts:65-69 | round `n + 1` is one generation of round `n` |
| Worlds.IterateIdentity | src/World.ts:65-69 | a rule that keeps every cell keeps the state for any number of rounds |
| Worlds.InitFromCells | src/World.ts:24-26 | initialising from a world's own cells reproduces its state |
| Worlds.GetCellIndex | src/World.ts:57-59 | `getCell` reaches every cell: the position that index `i` decodes to reads `state[i]` |
| Worlds.World.constructor | src/World.ts:28-34 | the fill loop builds the initial state, so `getCell(p) == init(p)` at every position (the test at src/World.test.ts:10-20) |
| Worlds.World.Unravel | src/World.ts:42-51 | the last-axis-first loop computes the decoding, which encodes back to the index |
| Worlds.World.View | src/World.ts:61-63 | the view has the world's dimensions and the given position, and its `getCell` is the world's |
| Worlds.World.Update | src/World.ts:65-69 | the state becomes exactly `rounds` rounds of the rule applied to the old state; a count below one changes nothing |
| Worlds.World.NextState | src/World.ts:67 | one round's `map` loop computes exactly the next generation of the current state, reading only that state |
| Worlds.World.Dump | src/World.ts:71-83 | the nested arrays have one level per axis within its extent, and the leaf at every position is `dumper` of its cell; a rank-0 world gives an empty array |
| Worlds.World.Clone | src/World.ts:24-26 | the clone is a new world with the same dimensions and the same cells |
| Worlds.UpdateClone | src/World.ts:24-26 | running rounds on a clone leaves the original world's state as it was |
| Life.Rule | src/World.test.ts:45-48 | the next state is alive iff the count is 3, or the cell is alive and the count is 2 |
| Life.LiveNeighbours | src/World.test.ts:40-44 | a cell has at most `3^n - 1` live neighbours in `n` dimensions |
| Life.LifeIsRule | src/World.test.ts:40-49 | the life rule is defined on every view at a position of a consistent world |
| Life.CountLive | src/World.test.ts:40-44 | counting live cells after the bounds filter equals counting the live contained positions one by one |
| Life.NeighboursInRing | src/World.test.ts:40-44 | in two dimensions, the live neighbours are the live cells of the surrounding ring that lie in the world |
| Life.InitIsHorizontal | src/World.test.ts:37 | initialising a 3 x 3 world with `pos[0] === 1` gives the horizontal line |
| Life.BlinkerTurns | src/World.test.ts:36-70 | one round of the life rule turns the horizontal line vertical |
| Life.BlinkerReturns | src/World.test.ts:36-70 | a second round turns it back, so two rounds restore the horizontal line |
| Life.DumpIsGrid3 | src/World.test.ts:52-69 | the only shaped 3 x 3 grid with a value at every position is the literal nested array of those values |
| Life.GameOfLife | src/World.test.ts:36-70 | the test's world dumps as the horizontal line before the update and as the vertical line after it |

## Left out

- The per-cell rule. A cell's rule is the `step` parameter of `Update`.
  The rule table the test calls (`registerCell`) and the `Dim2` type are
  not in src/World.ts, and `Cell` has no `update` member. So no registry
  and no fallback rule is modelled.
- The test's `instanceof` filter: on the test's all-`LifeCell` world it
  keeps every cell, so `Life.LiveNeighbours` filters only by liveness.
- JavaScript number semantics. Coordinates, extents and round counts are
  mathematical integers. Not modelled:
  - fractional round counts, which run `ceil(rounds)` rounds;
  - fractional coordinates;
  - `%` on negative indices;
  - floating-point overflow.
- Worlds.World.Unravel: requires a non-negative index.
- Indexing.Ravel: requires one component per axis. The source folds over
  the position only, so a shorter position uses a prefix of the extents.
- Worlds.World.constructor: requires positive extents. The source does not
  validate its dimensions.
- Views.WorldView.GetCell: requires a contained position of full length.
  The source does no bounds check. A position outside the world whose index
  still falls in `[0, product(dims))` reads another cell
  (`Indexing.RavelPastEdge`); `Views.WorldView.GetRelative` models that
  read.
- Views.WorldView.GetRelative: requires the moved position's index to fall
  in `[0, product(dims))`. Outside that interval the source reads
  `undefined`, which the model has no value for.
- References. Views and neighbourhoods hold the world by reference. The
  model gives them a snapshot value instead. This is the same thing for
  every read made during `update`, because `state` is reassigned only after
  the whole round is mapped. It differs for a neighbourhood kept across an
  update, which would then read the new state.
- Laziness. Each traversal is modelled as the whole sequence it yields.
  The iterator protocol and generator suspension are not modelled.
- Worlds.World.Dump: the nested arrays are built as values, not mutated in
  place. At rank 0 the source stores the single value under the key
  `undefined`, which is not an array entry; the model returns an empty
  array.
- Grids.Put: a plain value met where an array is expected stops the store.
  The model handles this case, but it cannot arise in `dump`, since all
  positions have the same length.
- Sharing cells between a world and its clone: cells are values here.
- The compile-time types `Position<D>` and `Grid<D, T>`, and the type-guard
  overloads of `filter`. These are represented as `seq<int>` and length
  preconditions.
- src/index.ts (re-exports only) and src/Cell.ts (interface declarations
  only) are not part of this model.
