/** WorldView: a read-only handle on a world, bound to one position. Its
    fields are set once, and every operation is a lookup in the world or
    builds a neighbourhood, so the view is modelled as a value. */
module Views {
  import opened Indexing
  import opened Snapshots
  import opened Neighbourhoods

  datatype WorldView<C> = WorldView(world: Snapshot<C>, position: seq<int>)
  {
    /** `dimensions`: the bound world's dimensions, which account for every
        cell of a consistent world. */
    function Dimensions(): (d: seq<int>)
      ensures world.Valid() ==> ValidDims(d) && Product(d) == |world.cells|
    {
      world.dims
    }

    /** `getCell`: absolute lookup in the bound world. */
    function GetCell(p: seq<int>): C
      requires world.Valid() && IsPosition(world.dims, p)
    {
      world.Cell(p)
    }

    /** `getRelative`: lookup of this view's position moved by `offset`,
        with no bounds check of the moved position: any position whose index
        falls among the cells is read. As the encoding is linear, the cell
        read lies `Ravel(offset)` cells from the index of the view's
        position, so a move past the edge of a row reads into the next row;
        a moved position inside the world reads its own cell. */
    function GetRelative(offset: seq<int>): (c: C)
      requires world.Valid() && |position| == |world.dims| && |offset| == |position|
      requires 0 <= Ravel(world.dims, Shift(position, offset)) < |world.cells|
      ensures 0 <= Ravel(world.dims, position) + Ravel(world.dims, offset) < |world.cells|
      ensures c == world.cells[Ravel(world.dims, position) + Ravel(world.dims, offset)]
      ensures IsPosition(world.dims, Shift(position, offset)) ==> c == GetCell(Shift(position, offset))
    {
      RavelShift(world.dims, position, offset);
      world.cells[Ravel(world.dims, Shift(position, offset))]
    }

    /** `moore`: the Moore neighbourhood of this view's position. */
    function Moore(range: int := 1): Neighbourhood<C> {
      Neighbourhood.Moore(world, range, position)
    }

    /** `vonNeumann`: the Von Neumann neighbourhood of this view's position. */
    function VonNeumann(range: int := 1): Neighbourhood<C> {
      Neighbourhood.VonNeumann(world, range, position)
    }
  }

  /** `moore()` of a view reads exactly the world's positions other than the
      view's own that lie within `range` of it on every axis. */
  lemma ViewMoore<C>(v: WorldView<C>, range: int, q: seq<int>)
    requires v.world.Valid() && |v.position| == |v.world.dims|
    ensures v.Moore(range).Wf()
    ensures q in v.Moore(range).Sites() <==>
      IsPosition(v.world.dims, q) && q != v.position && InCube(v.position, q, range)
  {
    MooreSites(v.world, range, v.position, q);
  }

  /** `vonNeumann()` of a view reads exactly the world's positions one move
      of 1 to `range` along a single axis away from the view's own. */
  lemma ViewVonNeumann<C>(v: WorldView<C>, range: int, q: seq<int>)
    requires v.world.Valid() && |v.position| == |v.world.dims|
    ensures v.VonNeumann(range).Wf()
    ensures q in v.VonNeumann(range).Sites() <==> IsPosition(v.world.dims, q) && OnAxis(v.position, q, range)
  {
    VonNeumannSites(v.world, range, v.position, q);
  }

  /** `getCell` reaches every cell of the world: the position that index `i`
      decodes to reads cell `i`. */
  lemma GetCellIndex<C>(v: WorldView<C>, i: int)
    requires v.world.Valid() && 0 <= i < |v.world.cells|
    ensures IsPosition(v.world.dims, Unravel(v.world.dims, i))
    ensures v.GetCell(Unravel(v.world.dims, i)) == v.world.cells[i]
  {
  }

  /** The zero offset reads the view's own cell. */
  lemma RelativeZero<C>(v: WorldView<C>)
    requires v.world.Valid() && IsPosition(v.world.dims, v.position)
    ensures IsPosition(v.world.dims, Shift(v.position, seq(|v.position|, _ => 0)))
    ensures v.GetRelative(seq(|v.position|, _ => 0)) == v.GetCell(v.position)
  {
    assert Shift(v.position, seq(|v.position|, _ => 0)) == v.position;
  }

  /** Relative moves compose: moving by `a` and then, from the view there, by
      `b` reads the same cell as moving by `a + b` at once. */
  lemma RelativeCompose<C>(v: WorldView<C>, a: seq<int>, b: seq<int>)
    requires v.world.Valid() && |a| == |v.position| && |b| == |v.position|
    requires IsPosition(v.world.dims, Shift(Shift(v.position, a), b))
    ensures IsPosition(v.world.dims, Shift(v.position, Shift(a, b)))
    ensures WorldView(v.world, Shift(v.position, a)).GetRelative(b) == v.GetRelative(Shift(a, b))
  {
    assert Shift(Shift(v.position, a), b) == Shift(v.position, Shift(a, b));
  }

  /** A move past the edge of a row: in a 3 x 3 world, the view at [0, 2]
      moved by [0, 1] reaches [0, 3], which is outside the world, and reads
      the cell of [1, 0]. */
  lemma RelativePastEdge<C>(s: seq<C>)
    requires |s| == 9
    ensures Snapshot([3, 3], s).Valid()
    ensures !IsPosition([3, 3], Shift([0, 2], [0, 1]))
    ensures 0 <= Ravel([3, 3], Shift([0, 2], [0, 1])) < |s|
    ensures WorldView(Snapshot([3, 3], s), [0, 2]).GetRelative([0, 1]) == s[3]
    ensures IsPosition([3, 3], [1, 0])
    ensures WorldView(Snapshot([3, 3], s), [0, 2]).GetRelative([0, 1]) ==
      WorldView(Snapshot([3, 3], s), [0, 2]).GetCell([1, 0])
  {
    var w := Snapshot([3, 3], s);
    assert [3, 3][..1] == [3] && [3][..0] == [];
    assert Product([3, 3]) == 9;
    assert Shift([0, 2], [0, 1]) == [0, 3];
    RavelPastEdge();
    assert w.Cell([1, 0]) == s[3];
  }

  // ---------------------------------------------------------------------
  // The shapes around an interior cell of a two-dimensional world with the
  // default range of 1. Each literal step is its own lemma: the solver
  // handles the small facts one at a time.
  // ---------------------------------------------------------------------

  /** The eight cells around `[x, y]`, first axis fastest. */
  function Ring(x: int, y: int): seq<seq<int>> {
    [[x - 1, y - 1], [x, y - 1], [x + 1, y - 1], [x - 1, y],
     [x + 1, y], [x - 1, y + 1], [x, y + 1], [x + 1, y + 1]]
  }

  /** The four orthogonal neighbours of `[x, y]`, along the first axis first. */
  function Cross(x: int, y: int): seq<seq<int>> {
    [[x - 1, y], [x + 1, y], [x, y - 1], [x, y + 1]]
  }

  lemma UnitRow(t: seq<int>)
    ensures Spread(-1, 1, [t]) == [[-1] + t, [0] + t, [1] + t]
  {
    assert [t][1..] == [];
    assert Spread(-1, 1, [t]) == seq(3, i => [-1 + i] + t) + Spread(-1, 1, []);
  }

  lemma UnitLine()
    ensures Multirange(Cube(1, 1)) == [[-1], [0], [1]]
  {
    var c := Cube(1, 1);
    assert c[0] == (-1, 1) && c[1..] == [];
    assert Multirange(c) == Spread(-1, 1, [[]]);
    UnitRow([]);
    assert [-1] + [] == [-1] && [0] + [] == [0] && [1] + [] == [1];
  }

  /** The cube of range 1 in two dimensions, first component fastest. */
  lemma UnitSquare()
    ensures Multirange(Cube(2, 1)) ==
      [[-1, -1], [0, -1], [1, -1], [-1, 0], [0, 0], [1, 0], [-1, 1], [0, 1], [1, 1]]
  {
    var c := Cube(2, 1);
    assert c[0] == (-1, 1) && c[1..] == Cube(1, 1);
    UnitLine();
    assert Multirange(c) == Spread(-1, 1, [[-1], [0], [1]]);
    SpreadAppend(-1, 1, [[-1]], [[0], [1]]);
    SpreadAppend(-1, 1, [[0]], [[1]]);
    assert [[-1], [0], [1]] == [[-1]] + ([[0]] + [[1]]);
    UnitRow([-1]);
    UnitRow([0]);
    UnitRow([1]);
    assert Multirange(c) == Spread(-1, 1, [[-1]]) + Spread(-1, 1, [[0]]) + Spread(-1, 1, [[1]]);
    forall a, b | a in {-1, 0, 1} && b in {-1, 0, 1} ensures [a] + [b] == [a, b] {
    }
  }

  /** The offsets of the unit square before its centre. */
  function Lower(): seq<seq<int>> {
    [[-1, -1], [0, -1], [1, -1], [-1, 0]]
  }

  /** The offsets of the unit square after its centre. */
  function Upper(): seq<seq<int>> {
    [[1, 0], [-1, 1], [0, 1], [1, 1]]
  }

  lemma LowerOffsetsNonZero()
    ensures forall o :: o in Lower() ==> NonZero(o)
  {
    forall o | o in Lower() ensures NonZero(o) {
      assert o[0] != 0 || o[1] != 0;
    }
  }

  lemma UpperOffsetsNonZero()
    ensures forall o :: o in Upper() ==> NonZero(o)
  {
    forall o | o in Upper() ensures NonZero(o) {
      assert o[0] != 0 || o[1] != 0;
    }
  }

  lemma SquareAroundCentre()
    ensures [[-1, -1], [0, -1], [1, -1], [-1, 0], [0, 0], [1, 0], [-1, 1], [0, 1], [1, 1]]
      == Lower() + [[0, 0]] + Upper()
    ensures Lower() + Upper() == [[-1, -1], [0, -1], [1, -1], [-1, 0], [1, 0], [-1, 1], [0, 1], [1, 1]]
    ensures !NonZero([0, 0])
  {
  }

  lemma DropCentre()
    ensures Keep(Lower() + [[0, 0]] + Upper(), NonZero) == Lower() + Upper()
  {
    LowerOffsetsNonZero();
    UpperOffsetsNonZero();
    SquareAroundCentre();
    KeepDropsOne(Lower(), [0, 0], Upper(), NonZero);
  }

  lemma UnitSquareOffsets()
    ensures Keep(Multirange(Cube(2, 1)), NonZero) ==
      [[-1, -1], [0, -1], [1, -1], [-1, 0], [1, 0], [-1, 1], [0, 1], [1, 1]]
  {
    UnitSquare();
    SquareAroundCentre();
    DropCentre();
  }

  /** The Moore offsets of range 1 in two dimensions: the square without its centre. */
  lemma UnitOffsets()
    ensures MooreOffsets(2, 1) == [[-1, -1], [0, -1], [1, -1], [-1, 0], [1, 0], [-1, 1], [0, 1], [1, 1]]
  {
    UnitSquareOffsets();
  }

  lemma ShiftPair(p: seq<int>, o: seq<int>)
    requires |p| == 2 && |o| == 2
    ensures Shift(p, o) == [p[0] + o[0], p[1] + o[1]]
  {
  }

  lemma ShiftsEight(p: seq<int>)
    requires |p| == 2
    ensures var x, y := p[0], p[1];
      var offsets := [[-1, -1], [0, -1], [1, -1], [-1, 0], [1, 0], [-1, 1], [0, 1], [1, 1]];
      forall k :: 0 <= k < 8 ==> Ring(x, y)[k] == Shift(p, offsets[k])
  {
    var x, y := p[0], p[1];
    var offsets := [[-1, -1], [0, -1], [1, -1], [-1, 0], [1, 0], [-1, 1], [0, 1], [1, 1]];
    var sites := Ring(x, y);
    forall k | 0 <= k < 8 ensures sites[k] == Shift(p, offsets[k]) {
      ShiftPair(p, offsets[k]);
    }
  }

  lemma MooreCandidatesFrom(p: seq<int>, range: int, offsets: seq<seq<int>>, sites: seq<seq<int>>)
    requires offsets == MooreOffsets(|p|, range) && |sites| == |offsets|
    requires forall k :: 0 <= k < |sites| ==> |offsets[k]| == |p| && sites[k] == Shift(p, offsets[k])
    ensures MooreCandidates(p, range) == sites
  {
  }

  lemma UnitMooreShifts(p: seq<int>, sites: seq<seq<int>>)
    requires |p| == 2 && |sites| == 8
    requires forall k :: 0 <= k < 8 ==>
      sites[k] == Shift(p, [[-1, -1], [0, -1], [1, -1], [-1, 0], [1, 0], [-1, 1], [0, 1], [1, 1]][k])
    ensures MooreCandidates(p, 1) == sites
  {
    UnitOffsets();
    MooreCandidatesFrom(p, 1, [[-1, -1], [0, -1], [1, -1], [-1, 0], [1, 0], [-1, 1], [0, 1], [1, 1]], sites);
  }

  /** The Moore candidates of range 1 around a two-dimensional position. */
  lemma UnitMoore(p: seq<int>)
    requires |p| == 2
    ensures MooreCandidates(p, 1) == Ring(p[0], p[1])
  {
    ShiftsEight(p);
    UnitMooreShifts(p, Ring(p[0], p[1]));
  }

  /** Candidates that the world all contains are all read, in order. */
  lemma AllContained<C>(n: Neighbourhood<C>, sites: seq<seq<int>>)
    requires !n.Filtered? && |n.position| == |n.world.dims|
    requires n.Candidates() == sites
    requires forall q :: q in sites ==> Contains(n.world.dims, q)
    ensures n.Sites() == sites
  {
    KeepAll(sites, InGrid(n.world.dims));
  }

  lemma MooreSitesFrom<C>(v: WorldView<C>, sites: seq<seq<int>>)
    requires |v.position| == |v.world.dims|
    requires MooreCandidates(v.position, 1) == sites
    requires forall q :: q in sites ==> Contains(v.world.dims, q)
    ensures v.Moore().Sites() == sites
  {
    AllContained(v.Moore(), sites);
  }

  lemma VonNeumannSitesFrom<C>(v: WorldView<C>, sites: seq<seq<int>>)
    requires |v.position| == |v.world.dims|
    requires StarCandidates(v.position, 0, 1) == sites
    requires forall q :: q in sites ==> Contains(v.world.dims, q)
    ensures v.VonNeumann().Sites() == sites
  {
    AllContained(v.VonNeumann(), sites);
  }

  lemma PairContained(dims: seq<int>, a: int, b: int)
    requires |dims| == 2 && 0 <= a < dims[0] && 0 <= b < dims[1]
    ensures Contains(dims, [a, b])
  {
  }

  lemma RingContained(dims: seq<int>, x: int, y: int)
    requires |dims| == 2 && 1 <= x < dims[0] - 1 && 1 <= y < dims[1] - 1
    ensures forall q :: q in Ring(x, y) ==> Contains(dims, q)
  {
    forall a, b | x - 1 <= a <= x + 1 && y - 1 <= b <= y + 1 ensures Contains(dims, [a, b]) {
      PairContained(dims, a, b);
    }
  }

  lemma CrossContained(dims: seq<int>, x: int, y: int)
    requires |dims| == 2 && 1 <= x < dims[0] - 1 && 1 <= y < dims[1] - 1
    ensures forall q :: q in Cross(x, y) ==> Contains(dims, q)
  {
    forall a, b | x - 1 <= a <= x + 1 && y - 1 <= b <= y + 1 ensures Contains(dims, [a, b]) {
      PairContained(dims, a, b);
    }
  }

  /** `moore()` at an interior cell of a two-dimensional world reads the
      eight surrounding cells, first axis fastest. */
  lemma MooreInterior<C>(v: WorldView<C>)
    requires |v.world.dims| == 2 && |v.position| == 2
    requires 1 <= v.position[0] < v.world.dims[0] - 1
    requires 1 <= v.position[1] < v.world.dims[1] - 1
    ensures v.Moore().Sites() == Ring(v.position[0], v.position[1])
  {
    var x, y := v.position[0], v.position[1];
    UnitMoore(v.position);
    RingContained(v.world.dims, x, y);
    MooreSitesFrom(v, Ring(x, y));
  }

  lemma AxisUnit(p: seq<int>, i: int)
    requires 0 <= i < |p|
    ensures AxisCandidates(p, i, 1, 1) == [Step(p, i, -1), Step(p, i, 1)]
  {
    assert AxisCandidates(p, i, 2, 1) == [];
  }

  lemma StarUnit(p: seq<int>)
    requires |p| == 2
    ensures StarCandidates(p, 0, 1) == [Step(p, 0, -1), Step(p, 0, 1), Step(p, 1, -1), Step(p, 1, 1)]
  {
    AxisUnit(p, 0);
    AxisUnit(p, 1);
    assert StarCandidates(p, 2, 1) == [];
    assert StarCandidates(p, 1, 1) == [Step(p, 1, -1), Step(p, 1, 1)];
  }

  lemma StepsFour(p: seq<int>)
    requires |p| == 2
    ensures [Step(p, 0, -1), Step(p, 0, 1), Step(p, 1, -1), Step(p, 1, 1)]
      == Cross(p[0], p[1])
  {
    assert Step(p, 0, -1) == [p[0] - 1, p[1]];
    assert Step(p, 0, 1) == [p[0] + 1, p[1]];
    assert Step(p, 1, -1) == [p[0], p[1] - 1];
    assert Step(p, 1, 1) == [p[0], p[1] + 1];
  }

  /** The Von Neumann candidates of range 1 around a two-dimensional position. */
  lemma UnitStar(p: seq<int>)
    requires |p| == 2
    ensures StarCandidates(p, 0, 1) == Cross(p[0], p[1])
  {
    StarUnit(p);
    StepsFour(p);
  }

  /** `vonNeumann()` at an interior cell of a two-dimensional world reads the
      four orthogonal neighbours: along the first axis, then the second. */
  lemma VonNeumannInterior<C>(v: WorldView<C>)
    requires |v.world.dims| == 2 && |v.position| == 2
    requires 1 <= v.position[0] < v.world.dims[0] - 1
    requires 1 <= v.position[1] < v.world.dims[1] - 1
    ensures v.VonNeumann().Sites() == Cross(v.position[0], v.position[1])
  {
    var p := v.position;
    UnitStar(p);
    CrossContained(v.world.dims, p[0], p[1]);
    VonNeumannSitesFrom(v, Cross(p[0], p[1]));
  }
}
