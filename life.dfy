/** Conway's Game of Life on the engine: a cell is a boolean (alive or not)
    and its rule counts the live cells of its Moore neighbourhood. */
module Life {
  import opened Indexing
  import opened Snapshots
  import opened Neighbourhoods
  import opened Views
  import opened Grids
  import opened Worlds

  /** The state of a cell, as the filter and the dumper read it. */
  predicate Alive(c: bool) {
    c
  }

  /** The number of live cells in the Moore neighbourhood of a view: at
      most `3^n - 1` in `n` dimensions, so at most 8 on a plane. */
  function LiveNeighbours(v: WorldView<bool>): (r: nat)
    requires v.world.Valid() && IsPosition(v.world.dims, v.position)
    ensures r <= Power(3, |v.position|) - 1
  {
    var n := v.Moore();
    MooreCount(v.world, 1, v.position);
    assert |n.Filter(Alive).Cells()| <= |n.Cells()|;
    |n.Filter(Alive).Cells()|
  }

  /** The rule: a live cell with fewer than two or more than three live
      neighbours dies, a dead cell with exactly three comes alive, and every
      other cell stays as it is. */
  function Rule(c: bool, n: nat): (r: bool)
    ensures r <==> n == 3 || (c && n == 2)
  {
    if c && n < 2 then false
    else if c && n > 3 then false
    else if !c && n == 3 then true
    else c
  }

  /** The update of a cell of the game, given a view at its position. */
  function LifeStep(c: bool, v: WorldView<bool>): bool
    requires v.world.Valid() && IsPosition(v.world.dims, v.position)
  {
    Rule(c, LiveNeighbours(v))
  }

  lemma LifeIsRule()
    ensures IsRule(LifeStep)
  {
  }

  // ---------------------------------------------------------------------
  // Counting live neighbours position by position.
  // ---------------------------------------------------------------------

  /** The cells at `sites`, in order. */
  function Read(world: Snapshot<bool>, sites: seq<seq<int>>): (r: seq<bool>)
    requires world.Valid()
    requires forall k :: 0 <= k < |sites| ==> IsPosition(world.dims, sites[k])
    ensures |r| == |sites|
  {
    seq(|sites|, k requires 0 <= k < |sites| => world.Cell(sites[k]))
  }

  /** How many of `qs` lie in the grid and hold a live cell. */
  function LiveCount(world: Snapshot<bool>, qs: seq<seq<int>>): nat
    requires world.Valid()
  {
    if qs == [] then 0
    else
      var q := qs[0];
      (if IsPosition(world.dims, q) && world.Cell(q) then 1 else 0) + LiveCount(world, qs[1..])
  }

  /** The candidates that pass the bounds check are positions of the grid. */
  lemma ContainedSites(dims: seq<int>, qs: seq<seq<int>>)
    requires forall k :: 0 <= k < |qs| ==> |qs[k]| == |dims|
    ensures forall k :: 0 <= k < |Keep(qs, InGrid(dims))| ==> IsPosition(dims, Keep(qs, InGrid(dims))[k])
  {
    var sites := Keep(qs, InGrid(dims));
    forall k | 0 <= k < |sites| ensures IsPosition(dims, sites[k]) {
      assert sites[k] in qs && InGrid(dims)(sites[k]);
    }
  }

  lemma ReadAppend(world: Snapshot<bool>, a: seq<seq<int>>, b: seq<seq<int>>)
    requires world.Valid()
    requires forall k :: 0 <= k < |a| ==> IsPosition(world.dims, a[k])
    requires forall k :: 0 <= k < |b| ==> IsPosition(world.dims, b[k])
    ensures forall k :: 0 <= k < |a + b| ==> IsPosition(world.dims, (a + b)[k])
    ensures Read(world, a + b) == Read(world, a) + Read(world, b)
  {
  }

  /** One candidate: filtering what it reads, if it is in the grid, counts
      it when it is a live cell of the grid. */
  lemma CountLiveOne(world: Snapshot<bool>, q: seq<int>)
    requires world.Valid() && |q| == |world.dims|
    ensures forall k :: 0 <= k < |Keep([q], InGrid(world.dims))| ==>
      IsPosition(world.dims, Keep([q], InGrid(world.dims))[k])
    ensures |Keep(Read(world, Keep([q], InGrid(world.dims))), Alive)| == LiveCount(world, [q])
  {
    var f := InGrid(world.dims);
    KeepOne(q, f);
    assert [q][1..] == [];
    if f(q) {
      assert Read(world, [q]) == [world.Cell(q)];
      KeepOne(world.Cell(q), Alive);
    }
  }

  /** Filtering the cells read at the contained candidates counts the live
      cells among the candidates in the grid. */
  lemma {:induction false} CountLive(world: Snapshot<bool>, qs: seq<seq<int>>)
    requires world.Valid()
    requires forall k :: 0 <= k < |qs| ==> |qs[k]| == |world.dims|
    ensures forall k :: 0 <= k < |Keep(qs, InGrid(world.dims))| ==>
      IsPosition(world.dims, Keep(qs, InGrid(world.dims))[k])
    ensures |Keep(Read(world, Keep(qs, InGrid(world.dims))), Alive)| == LiveCount(world, qs)
  {
    ContainedSites(world.dims, qs);
    if qs != [] {
      var f := InGrid(world.dims);
      var q := qs[0];
      CountLive(world, qs[1..]);
      CountLiveOne(world, q);
      LiveCountCons(world, qs);
      var head, rest := Keep([q], f), Keep(qs[1..], f);
      assert qs == [q] + qs[1..];
      KeepAppend([q], qs[1..], f);
      ReadAppend(world, head, rest);
      KeepAppend(Read(world, head), Read(world, rest), Alive);
    }
  }

  /** Counting the live cells of a Moore or Von Neumann neighbourhood counts
      the live cells at its candidates that lie in the grid. */
  lemma LiveInNeighbourhood(n: Neighbourhood<bool>)
    requires !n.Filtered? && n.Wf()
    ensures |n.Filter(Alive).Cells()| == LiveCount(n.world, n.Candidates())
  {
    var c := n.Candidates();
    CountLive(n.world, c);
    CellsRead(n);
    assert n.Filter(Alive).Cells() == Keep(n.Cells(), Alive);
  }

  lemma CellsRead(n: Neighbourhood<bool>)
    requires !n.Filtered? && n.Wf()
    ensures n.Cells() == Read(n.world, n.Sites())
  {
  }

  /** In two dimensions, the live neighbours of range 1 are the live cells
      of the ring around the position that lie in the grid. */
  lemma NeighboursInRing(v: WorldView<bool>)
    requires v.world.Valid() && IsPosition(v.world.dims, v.position) && |v.position| == 2
    ensures LiveNeighbours(v) == LiveCount(v.world, Ring(v.position[0], v.position[1]))
  {
    UnitMoore(v.position);
    LiveInNeighbourhood(v.Moore());
  }

  // ---------------------------------------------------------------------
  // The blinker: a line of three live cells in a 3 x 3 world turns a
  // quarter and back, one round at a time.
  // ---------------------------------------------------------------------

  /** The line along the second axis, at first index 1: `init` of the game
      makes exactly the cells whose first component is 1 alive. */
  const Horizontal: seq<bool> := [false, false, false, true, true, true, false, false, false]

  /** The line along the first axis, at second index 1. */
  const Vertical: seq<bool> := [false, true, false, false, true, false, false, true, false]

  lemma Square()
    ensures ValidDims([3, 3]) && Product([3, 3]) == 9
  {
    assert [3, 3][..1] == [3] && [3][..0] == [];
  }

  /** In a two-dimensional grid, `[a, b]` is a position exactly when both
      components are in range, and its index is `a * dims[1] + b`. */
  lemma Pair(dims: seq<int>, a: int, b: int)
    requires |dims| == 2
    ensures IsPosition(dims, [a, b]) <==> 0 <= a < dims[0] && 0 <= b < dims[1]
    ensures Ravel(dims, [a, b]) == a * dims[1] + b
  {
    assert [a, b][..1] == [a] && dims[..1][..0] == [] && [a][..0] == [];
  }

  /** Whether `[a, b]` is a live cell of the 3 x 3 state `s`, as a count. */
  function Lit3(s: seq<bool>, a: int, b: int): nat
    requires |s| == 9
  {
    if 0 <= a < 3 && 0 <= b < 3 && s[3 * a + b] then 1 else 0
  }

  lemma LiveCountCons(world: Snapshot<bool>, qs: seq<seq<int>>)
    requires world.Valid() && qs != []
    ensures LiveCount(world, qs) == LiveCount(world, [qs[0]]) + LiveCount(world, qs[1..])
  {
    assert [qs[0]][1..] == [];
  }

  /** A count over eight candidates is the sum of the counts of each. */
  lemma LiveCountEight(world: Snapshot<bool>, r: seq<seq<int>>)
    requires world.Valid() && |r| == 8
    ensures LiveCount(world, r) ==
      LiveCount(world, [r[0]]) + LiveCount(world, [r[1]]) + LiveCount(world, [r[2]]) +
      LiveCount(world, [r[3]]) + LiveCount(world, [r[4]]) + LiveCount(world, [r[5]]) +
      LiveCount(world, [r[6]]) + LiveCount(world, [r[7]])
  {
    assert r[8..] == [];
    LiveCountCons(world, r[7..]);
    assert r[7..][1..] == r[8..];
    LiveCountCons(world, r[6..]);
    assert r[6..][1..] == r[7..];
    LiveCountCons(world, r[5..]);
    assert r[5..][1..] == r[6..];
    LiveCountCons(world, r[4..]);
    assert r[4..][1..] == r[5..];
    LiveCountCons(world, r[3..]);
    assert r[3..][1..] == r[4..];
    LiveCountCons(world, r[2..]);
    assert r[2..][1..] == r[3..];
    LiveCountCons(world, r[1..]);
    assert r[1..][1..] == r[2..];
    LiveCountCons(world, r);
  }

  /** One candidate of a 3 x 3 state counts as `Lit3`. */
  lemma LiveCountLit(s: seq<bool>, a: int, b: int)
    requires |s| == 9
    ensures Snapshot([3, 3], s).Valid()
    ensures LiveCount(Snapshot([3, 3], s), [[a, b]]) == Lit3(s, a, b)
  {
    Square();
    Pair([3, 3], a, b);
    assert [[a, b]][1..] == [];
  }

  /** The live cells of the ring around `[x, y]` in a 3 x 3 state. */
  lemma RingCount(s: seq<bool>, x: int, y: int)
    requires |s| == 9
    ensures Snapshot([3, 3], s).Valid()
    ensures LiveCount(Snapshot([3, 3], s), Ring(x, y)) ==
      Lit3(s, x - 1, y - 1) + Lit3(s, x, y - 1) + Lit3(s, x + 1, y - 1) + Lit3(s, x - 1, y) +
      Lit3(s, x + 1, y) + Lit3(s, x - 1, y + 1) + Lit3(s, x, y + 1) + Lit3(s, x + 1, y + 1)
  {
    var w := Snapshot([3, 3], s);
    LiveCountLit(s, x - 1, y - 1);
    LiveCountLit(s, x, y - 1);
    LiveCountLit(s, x + 1, y - 1);
    LiveCountLit(s, x - 1, y);
    LiveCountLit(s, x + 1, y);
    LiveCountLit(s, x - 1, y + 1);
    LiveCountLit(s, x, y + 1);
    LiveCountLit(s, x + 1, y + 1);
    LiveCountEight(w, Ring(x, y));
  }

  /** The rule at `[x, y]` of a 3 x 3 state, with the neighbours counted. */
  lemma StepAt(s: seq<bool>, x: int, y: int)
    requires |s| == 9 && 0 <= x < 3 && 0 <= y < 3
    ensures Snapshot([3, 3], s).Valid() && IsPosition([3, 3], [x, y])
    ensures LiveNeighbours(WorldView(Snapshot([3, 3], s), [x, y])) ==
      Lit3(s, x - 1, y - 1) + Lit3(s, x, y - 1) + Lit3(s, x + 1, y - 1) + Lit3(s, x - 1, y) +
      Lit3(s, x + 1, y) + Lit3(s, x - 1, y + 1) + Lit3(s, x, y + 1) + Lit3(s, x + 1, y + 1)
  {
    RingCount(s, x, y);
    Pair([3, 3], x, y);
    NeighboursInRing(WorldView(Snapshot([3, 3], s), [x, y]));
  }

  /** The next state of `[x, y]` in a 3 x 3 state, by counting. */
  function Next3(s: seq<bool>, x: int, y: int): bool
    requires |s| == 9 && 0 <= x < 3 && 0 <= y < 3
  {
    var n := Lit3(s, x - 1, y - 1) + Lit3(s, x, y - 1) + Lit3(s, x + 1, y - 1) + Lit3(s, x - 1, y) +
             Lit3(s, x + 1, y) + Lit3(s, x - 1, y + 1) + Lit3(s, x, y + 1) + Lit3(s, x + 1, y + 1);
    Rule(s[3 * x + y], n)
  }

  lemma CellRound(s: seq<bool>, x: int, y: int)
    requires |s| == 9 && 0 <= x < 3 && 0 <= y < 3
    ensures ValidDims([3, 3]) && |s| == Product([3, 3]) && IsRule(LifeStep)
    ensures Generation([3, 3], s, LifeStep)[3 * x + y] == Next3(s, x, y)
  {
    Square();
    LifeIsRule();
    Pair([3, 3], x, y);
    StepAt(s, x, y);
  }

  /** One round of a state `s` of the 3 x 3 world gives `t`, checked cell by
      cell on the rule with its counted neighbours. */
  lemma RoundOf(s: seq<bool>, t: seq<bool>)
    requires |s| == 9 && |t| == 9
    requires forall x, y :: 0 <= x < 3 && 0 <= y < 3 ==> t[3 * x + y] == Next3(s, x, y)
    ensures ValidDims([3, 3]) && |s| == Product([3, 3]) && IsRule(LifeStep)
    ensures Generation([3, 3], s, LifeStep) == t
  {
    Square();
    LifeIsRule();
    var g := Generation([3, 3], s, LifeStep);
    forall i | 0 <= i < 9 ensures g[i] == t[i] {
      CellRound(s, i / 3, i % 3);
    }
  }

  /** The horizontal line turns vertical. */
  lemma BlinkerTurns()
    ensures ValidDims([3, 3]) && |Horizontal| == Product([3, 3]) && IsRule(LifeStep)
    ensures Generation([3, 3], Horizontal, LifeStep) == Vertical
  {
    RoundOf(Horizontal, Vertical);
  }

  /** The vertical line turns back: the blinker has period two. */
  lemma BlinkerReturns()
    ensures ValidDims([3, 3]) && |Vertical| == Product([3, 3]) && IsRule(LifeStep)
    ensures Generation([3, 3], Vertical, LifeStep) == Horizontal
    ensures Iterate([3, 3], Horizontal, LifeStep, 2) == Horizontal
  {
    RoundOf(Vertical, Horizontal);
    BlinkerTurns();
  }

  // ---------------------------------------------------------------------
  // The game-of-life test: the dumps before and after one update.
  // ---------------------------------------------------------------------

  /** The nested arrays of a 3 x 3 state, one inner array per first index. */
  function Grid3(s: seq<bool>): seq<Grid<bool>>
    requires |s| == 9
  {
    [Node([Leaf(s[0]), Leaf(s[1]), Leaf(s[2])]),
     Node([Leaf(s[3]), Leaf(s[4]), Leaf(s[5])]),
     Node([Leaf(s[6]), Leaf(s[7]), Leaf(s[8])])]
  }

  /** `Grid3(s)` holds `s[3 * a + b]` at `[a, b]`. */
  lemma Grid3At(s: seq<bool>, a: int, b: int)
    requires |s| == 9 && 0 <= a < 3 && 0 <= b < 3
    ensures At(Grid3(s), [a, b]) == Leaf(s[3 * a + b])
  {
    assert [a, b][1..] == [b];
  }

  /** The only shaped grid holding `s[i]` at the position of every index `i`
      is `Grid3(s)`. */
  lemma DumpIsGrid3(grid: seq<Grid<bool>>, s: seq<bool>)
    requires |s| == 9
    requires Shaped(grid, [3, 3])
    requires forall p :: IsPosition([3, 3], p) ==> 0 <= Ravel([3, 3], p) < 9 && At(grid, p) == Leaf(s[Ravel([3, 3], p)])
    ensures grid == Grid3(s)
  {
    Square();
    var g := Grid3(s);
    assert Shaped(g, [3, 3]) by {
      assert [3, 3][1..] == [3];
    }
    forall p | IsPosition([3, 3], p) ensures At(grid, p) == At(g, p) && At(grid, p).Leaf? {
      assert p == [p[0], p[1]];
      Pair([3, 3], p[0], p[1]);
      Grid3At(s, p[0], p[1]);
    }
    Determined(grid, g, [3, 3]);
  }

  /** The initial cells of the test: alive exactly where the first
      component is 1. */
  function InitLine(p: seq<int>): bool
    requires IsPosition([3, 3], p)
  {
    p[0] == 1
  }

  lemma InitIsHorizontal()
    ensures ValidDims([3, 3]) && |Horizontal| == Product([3, 3])
    ensures InitState([3, 3], InitLine) == Horizontal
  {
    Square();
    forall p | IsPosition([3, 3], p) ensures InitLine(p) == Horizontal[Ravel([3, 3], p)] {
      Pair([3, 3], p[0], p[1]);
      assert p == [p[0], p[1]];
    }
    InitFromCells([3, 3], Horizontal, InitLine);
  }

  /** The game-of-life test: a 3 x 3 world whose middle line along the
      second axis is alive dumps as that line, and after one update dumps
      as the line along the first axis. */
  method GameOfLife() returns (before: seq<Grid<bool>>, after: seq<Grid<bool>>)
    ensures before == [Node([Leaf(false), Leaf(false), Leaf(false)]),
                       Node([Leaf(true), Leaf(true), Leaf(true)]),
                       Node([Leaf(false), Leaf(false), Leaf(false)])]
    ensures after == [Node([Leaf(false), Leaf(true), Leaf(false)]),
                      Node([Leaf(false), Leaf(true), Leaf(false)]),
                      Node([Leaf(false), Leaf(true), Leaf(false)])]
  {
    Square();
    InitIsHorizontal();
    var world := new World([3, 3], InitLine);
    before := world.Dump(Alive);
    DumpIsGrid3(before, Horizontal);
    LifeIsRule();
    world.Update(LifeStep);
    assert world.state == Vertical by {
      BlinkerTurns();
    }
    after := world.Dump(Alive);
    DumpIsGrid3(after, Vertical);
  }
}
