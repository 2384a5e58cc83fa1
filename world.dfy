/** The world: fixed dimensions and a dense state array, one cell per
    position in row-major order, replaced wholesale by each round of
    `update`. */
module Worlds {
  import opened Indexing
  import opened Snapshots
  import opened Views
  import opened Grids

  /** A cell's update rule: given the cell and a view of the world at its
      position, the cell of the next generation. It is defined on every view
      of a consistent world at one of its positions. */
  ghost predicate IsRule<C(!new)>(step: (C, WorldView<C>) --> C) {
    forall c: C, v: WorldView<C> ::
      v.world.Valid() && IsPosition(v.world.dims, v.position) ==> step.requires(c, v)
  }

  /** The initial state: the cell at each index is `init` of the position the
      index decodes to. */
  function InitState<C>(dims: seq<int>, init: seq<int> --> C): (s: seq<C>)
    requires ValidDims(dims)
    requires forall p :: IsPosition(dims, p) ==> init.requires(p)
    ensures |s| == Product(dims)
    ensures forall p :: IsPosition(dims, p) ==> s[Ravel(dims, p)] == init(p)
  {
    var s := seq(Product(dims), i requires 0 <= i < Product(dims) =>
      var p := Unravel(dims, i);
      assert IsPosition(dims, p);
      init(p));
    assert forall p :: IsPosition(dims, p) ==> s[Ravel(dims, p)] == init(p) by {
      forall p | IsPosition(dims, p) ensures s[Ravel(dims, p)] == init(p) {
        UnravelRavel(dims, p);
      }
    }
    s
  }

  /** One round: every cell is replaced by `step` applied to it and to a
      view, at its own position, of the state before the round. */
  function Generation<C(!new)>(dims: seq<int>, s: seq<C>, step: (C, WorldView<C>) --> C): (t: seq<C>)
    requires ValidDims(dims) && |s| == Product(dims) && IsRule(step)
    ensures |t| == |s|
    ensures forall p :: IsPosition(dims, p) ==>
      t[Ravel(dims, p)] == step(s[Ravel(dims, p)], WorldView(Snapshot(dims, s), p))
  {
    var t := seq(|s|, i requires 0 <= i < |s| =>
      step(s[i], WorldView(Snapshot(dims, s), Unravel(dims, i))));
    assert forall p :: IsPosition(dims, p) ==>
      t[Ravel(dims, p)] == step(s[Ravel(dims, p)], WorldView(Snapshot(dims, s), p)) by {
      forall p | IsPosition(dims, p)
        ensures t[Ravel(dims, p)] == step(s[Ravel(dims, p)], WorldView(Snapshot(dims, s), p))
      {
        UnravelRavel(dims, p);
      }
    }
    t
  }

  /** `n` rounds in a row. */
  function Iterate<C(!new)>(dims: seq<int>, s: seq<C>, step: (C, WorldView<C>) --> C, n: nat): (t: seq<C>)
    requires ValidDims(dims) && |s| == Product(dims) && IsRule(step)
    ensures |t| == |s|
    decreases n
  {
    if n == 0 then s else Iterate(dims, Generation(dims, s, step), step, n - 1)
  }

  /** Rounds compose: `a` rounds and then `b` more are `a + b` rounds. */
  lemma {:induction false} IterateAdd<C(!new)>(dims: seq<int>, s: seq<C>, step: (C, WorldView<C>) --> C, a: nat, b: nat)
    requires ValidDims(dims) && |s| == Product(dims) && IsRule(step)
    ensures Iterate(dims, Iterate(dims, s, step, a), step, b) == Iterate(dims, s, step, a + b)
    decreases a
  {
    if a > 0 {
      IterateAdd(dims, Generation(dims, s, step), step, a - 1, b);
    }
  }

  /** One more round is one more generation. */
  lemma IterateNext<C(!new)>(dims: seq<int>, s: seq<C>, step: (C, WorldView<C>) --> C, n: nat)
    requires ValidDims(dims) && |s| == Product(dims) && IsRule(step)
    ensures Iterate(dims, s, step, n + 1) == Generation(dims, Iterate(dims, s, step, n), step)
  {
    IterateAdd(dims, s, step, n, 1);
    var t := Iterate(dims, s, step, n);
    assert Iterate(dims, t, step, 1) == Iterate(dims, Generation(dims, t, step), step, 0);
  }

  /** A rule that leaves every cell as it is leaves the state as it is, for
      any number of rounds. */
  lemma {:induction false} IterateIdentity<C(!new)>(dims: seq<int>, s: seq<C>, step: (C, WorldView<C>) --> C, n: nat)
    requires ValidDims(dims) && |s| == Product(dims) && IsRule(step)
    requires forall c: C, v: WorldView<C> :: step.requires(c, v) ==> step(c, v) == c
    ensures Iterate(dims, s, step, n) == s
    decreases n
  {
    if n > 0 {
      var t := Generation(dims, s, step);
      forall i | 0 <= i < |s| ensures t[i] == s[i] {
        var p := Unravel(dims, i);
        assert IsPosition(dims, p);
      }
      IterateIdentity(dims, t, step, n - 1);
    }
  }

  /** Initialising from a snapshot's own cells reproduces its state. */
  lemma InitFromCells<C>(dims: seq<int>, s: seq<C>, init: seq<int> --> C)
    requires ValidDims(dims) && |s| == Product(dims)
    requires forall p :: IsPosition(dims, p) ==> init.requires(p) && init(p) == s[Ravel(dims, p)]
    ensures InitState(dims, init) == s
  {
    var t := InitState(dims, init);
    forall i | 0 <= i < |s| ensures t[i] == s[i] {
      var p := Unravel(dims, i);
      assert IsPosition(dims, p);
    }
  }

  /** One step of the decoding loop: peeling axis `i` off a partial
      decoding, as the remainder by its extent and the exact quotient, keeps
      what it will decode to. */
  lemma UnravelPeel(dims: seq<int>, i: int, rest: int, pos: int, next: int, position: seq<int>, target: seq<int>)
    requires ValidDims(dims) && 0 <= i < |dims| && rest >= 0
    requires pos == rest % dims[i] && next == (rest - pos) / dims[i]
    requires ValidDims(dims[..i + 1])
    requires Unravel(dims[..i + 1], rest) + position == target
    ensures ValidDims(dims[..i]) && next >= 0
    ensures Unravel(dims[..i], next) + ([pos] + position) == target
  {
    var d := dims[..i + 1];
    assert d[..i] == dims[..i] && d[i] == dims[i];
    ExactQuotient(rest, dims[i]);
    assert Unravel(d, rest) == Unravel(d[..i], rest / d[i]) + [rest % d[i]];
  }

  /** What the first `i` stores of `dump` have written: the grid's shape and
      the dumped cell at the position of every index below `i`. */
  ghost predicate Dumped<C, T>(grid: seq<Grid<T>>, dims: seq<int>, state: seq<C>, dumper: C -> T, i: nat)
    requires |dims| >= 1 && ValidDims(dims) && |state| == Product(dims) && i <= |state|
  {
    Shaped(grid, dims) &&
    forall j :: 0 <= j < i ==> At(grid, Unravel(dims, j)) == Leaf(dumper(state[j]))
  }

  /** One store of `dump` extends what it has written by one index. */
  lemma DumpStep<C, T>(grid: seq<Grid<T>>, dims: seq<int>, state: seq<C>, dumper: C -> T, i: nat)
    requires |dims| >= 1 && ValidDims(dims) && |state| == Product(dims) && i < |state|
    requires Dumped(grid, dims, state, dumper, i)
    ensures IsPosition(dims, Unravel(dims, i))
    ensures Dumped(Put(grid, Unravel(dims, i), dumper(state[i])), dims, state, dumper, i + 1)
  {
    var position, value := Unravel(dims, i), dumper(state[i]);
    var next := Put(grid, position, value);
    PutShaped(grid, dims, position, value);
    forall j | 0 <= j < i + 1
      ensures At(next, Unravel(dims, j)) == Leaf(dumper(state[j]))
    {
      if j < i {
        assert Unravel(dims, j) != position by {
          assert Ravel(dims, Unravel(dims, j)) == j;
        }
        PutAtOther(grid, dims, position, value, Unravel(dims, j));
      } else {
        PutAtSame(grid, dims, position, value);
      }
    }
  }

  class World<C(!new)> {
    const dimensions: seq<int>
    var state: seq<C>

    /** The dimensions are positive and the state holds one cell per position. */
    ghost predicate Valid()
      reads this
    {
      ValidDims(dimensions) && |state| == Product(dimensions)
    }

    /** The world as its cells' views read it. */
    function Snap(): (s: Snapshot<C>)
      reads this
      ensures Valid() ==> s.Valid()
    {
      Snapshot(dimensions, state)
    }

    /** `constructor`: one cell per position, `init` of the position each
        index decodes to, in index order. */
    constructor(dimensions: seq<int>, init: seq<int> --> C)
      requires ValidDims(dimensions)
      requires forall p :: IsPosition(dimensions, p) ==> init.requires(p)
      ensures Valid() && this.dimensions == dimensions
      ensures state == InitState(dimensions, init)
      ensures forall p :: IsPosition(dimensions, p) ==> GetCell(p) == init(p)
    {
      this.dimensions := dimensions;
      new;
      var length := Product(dimensions);
      var cells: seq<C> := [];
      for pos := 0 to length
        invariant cells == InitState(dimensions, init)[..pos]
      {
        var p := Unravel(pos);
        cells := cells + [init(p)];
      }
      state := cells;
    }

    /** `unravel`: the position of a flat index, computed from the last axis
        back to the first. */
    method Unravel(index: int) returns (position: seq<int>)
      requires ValidDims(dimensions) && index >= 0
      ensures position == Indexing.Unravel(dimensions, index)
      ensures index < Product(dimensions) ==>
        IsPosition(dimensions, position) && Ravel(dimensions, position) == index
    {
      position := [];
      var rest := index;
      ghost var target := Indexing.Unravel(dimensions, index);
      var axes := |dimensions|;
      assert dimensions[..axes] == dimensions;
      while axes > 0
        invariant 0 <= axes <= |dimensions| && rest >= 0
        invariant ValidDims(dimensions[..axes])
        invariant Indexing.Unravel(dimensions[..axes], rest) + position == target
      {
        var i := axes - 1;
        var dim := dimensions[i];
        var pos := rest % dim;
        var next := (rest - pos) / dim;
        UnravelPeel(dimensions, i, rest, pos, next, position, target);
        position := [pos] + position;
        rest := next;
        axes := i;
      }
      assert dimensions[..0] == [];
    }

    /** `getCell`: the cell stored at the position's flat index, read as
        the world's views read it. */
    function GetCell(p: seq<int>): C
      reads this
      requires Valid() && IsPosition(dimensions, p)
    {
      Snap().Cell(p)
    }

    /** `view`: a view of this world at `p`. */
    function View(p: seq<int>): (v: WorldView<C>)
      reads this
      requires Valid()
      ensures v.world.Valid() && v.Dimensions() == dimensions && v.position == p
      ensures IsPosition(dimensions, p) ==> v.GetCell(p) == GetCell(p)
    {
      WorldView(Snap(), p)
    }

    /** `update`: `rounds` rounds, each mapping every cell through `step`
        with a view at its position, all views reading the state of the
        round before. A count below one runs no round. */
    method Update(step: (C, WorldView<C>) --> C, rounds: int := 1)
      requires Valid() && IsRule(step)
      modifies this
      ensures Valid()
      ensures state == Iterate(dimensions, old(state), step, if rounds < 0 then 0 else rounds)
    {
      var i := 0;
      while i < rounds
        invariant Valid() && IsRule(step)
        invariant if rounds < 0 then i == 0 else 0 <= i <= rounds
        invariant state == Iterate(dimensions, old(state), step, i)
        decreases rounds - i
      {
        var next := NextState(step);
        IterateNext(dimensions, old(state), step, i);
        state := next;
        i := i + 1;
      }
    }

    /** One round's `map`: every cell through `step`, with a view at the
        position its index decodes to, all reading the current state. */
    method NextState(step: (C, WorldView<C>) --> C) returns (next: seq<C>)
      requires Valid() && IsRule(step)
      ensures next == Generation(dimensions, state, step)
    {
      next := [];
      for j := 0 to |state|
        invariant next == Generation(dimensions, state, step)[..j]
      {
        var p := Unravel(j);
        next := next + [step(state[j], View(p))];
      }
    }

    /** `dump`: the cells mapped through `dumper`, nested one array per axis
        in position order. A rank-0 world stores its one value under no
        index, so its grid has no entries. */
    method Dump<T>(dumper: C -> T) returns (grid: seq<Grid<T>>)
      requires Valid()
      ensures |dimensions| >= 1 ==> Shaped(grid, dimensions)
      ensures |dimensions| >= 1 ==> forall p :: IsPosition(dimensions, p) ==> At(grid, p) == Leaf(dumper(GetCell(p)))
      ensures |dimensions| == 0 ==> grid == []
    {
      grid := [];
      for i := 0 to |state|
        invariant |dimensions| >= 1 ==> Dumped(grid, dimensions, state, dumper, i)
        invariant |dimensions| == 0 ==> grid == []
      {
        var value := dumper(state[i]);
        var position := Unravel(i);
        if |position| >= 1 {
          DumpStep(grid, dimensions, state, dumper, i);
          grid := Put(grid, position, value);
        }
      }
      if |dimensions| >= 1 {
        forall p | IsPosition(dimensions, p) ensures At(grid, p) == Leaf(dumper(GetCell(p))) {
          UnravelRavel(dimensions, p);
        }
      }
    }

    /** `clone`: a new world of the same dimensions whose cells are read from
        `world` as it is now. */
    static method Clone(world: World<C>) returns (w: World<C>)
      requires world.Valid()
      ensures fresh(w) && w.Valid()
      ensures w.dimensions == world.dimensions && w.state == world.state
    {
      var dims, s := world.dimensions, world.state;
      var init := p requires ValidDims(dims) && |s| == Product(dims) && IsPosition(dims, p) => s[Ravel(dims, p)];
      w := new World(dims, init);
      InitFromCells(dims, s, init);
    }
  }

  /** `getCell` reaches every cell of the world: the position that index `i`
      decodes to reads cell `i`. */
  lemma GetCellIndex<C(!new)>(world: World<C>, i: int)
    requires world.Valid() && 0 <= i < |world.state|
    ensures IsPosition(world.dimensions, Unravel(world.dimensions, i))
    ensures world.GetCell(Unravel(world.dimensions, i)) == world.state[i]
  {
  }

  /** A clone owns its state: running rounds on the clone leaves the world
      it was cloned from as it was. */
  method UpdateClone<C(!new)>(world: World<C>, step: (C, WorldView<C>) --> C, rounds: int)
    returns (copy: World<C>)
    requires world.Valid() && IsRule(step)
    ensures fresh(copy) && copy.Valid() && copy.dimensions == world.dimensions
    ensures copy.state == Iterate(world.dimensions, world.state, step, if rounds < 0 then 0 else rounds)
    ensures world.state == old(world.state)
  {
    copy := World.Clone(world);
    copy.Update(step, rounds);
  }
}
