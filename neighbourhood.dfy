/** Neighbourhoods: restartable sequences of cells around a position, read
    from one snapshot of a world. Each traversal of the engine's iterators
    recomputes its sequence from fields that are never reassigned, so a
    traversal is modelled as a function of those fields. */
module Neighbourhoods {
  import opened Indexing
  import opened Snapshots

  // ---------------------------------------------------------------------
  // Filtering: the elements that satisfy a predicate, in their order.
  // ---------------------------------------------------------------------

  function Keep<T>(s: seq<T>, f: T -> bool): (r: seq<T>)
    ensures |r| <= |s|
    ensures forall k :: 0 <= k < |r| ==> r[k] in s && f(r[k])
    ensures forall k :: 0 <= k < |s| && f(s[k]) ==> s[k] in r
  {
    if s == [] then []
    else
      assert s == [s[0]] + s[1..];
      (if f(s[0]) then [s[0]] else []) + Keep(s[1..], f)
  }

  /** Filtering a concatenation filters each part in turn: order is kept. */
  lemma {:induction false} KeepAppend<T>(a: seq<T>, b: seq<T>, f: T -> bool)
    ensures Keep(a + b, f) == Keep(a, f) + Keep(b, f)
  {
    if a == [] {
      assert a + b == b;
    } else {
      assert (a + b)[1..] == a[1..] + b;
      KeepAppend(a[1..], b, f);
    }
  }

  /** Two chained filters keep what their conjunction keeps. */
  lemma {:induction false} KeepKeep<T>(s: seq<T>, f: T -> bool, g: T -> bool)
    ensures Keep(Keep(s, f), g) == Keep(s, x => f(x) && g(x))
  {
    if s != [] {
      KeepKeep(s[1..], f, g);
      var head := if f(s[0]) then [s[0]] else [];
      KeepAppend(head, Keep(s[1..], f), g);
    }
  }

  /** A sequence with an element that fails the predicate loses length. */
  lemma {:induction false} KeepDrops<T>(s: seq<T>, f: T -> bool, x: T)
    requires x in s && !f(x)
    ensures |Keep(s, f)| < |s|
  {
    if s[0] != x {
      KeepDrops(s[1..], f, x);
    }
  }

  /** Filtering by a predicate every element meets changes nothing. */
  lemma {:induction false} KeepAll<T>(s: seq<T>, f: T -> bool)
    requires forall x :: x in s ==> f(x)
    ensures Keep(s, f) == s
  {
    if s != [] {
      assert s == [s[0]] + s[1..];
      KeepAll(s[1..], f);
    }
  }

  /** Filtering one element keeps it exactly when it satisfies the predicate. */
  lemma KeepOne<T>(x: T, f: T -> bool)
    ensures Keep([x], f) == if f(x) then [x] else []
  {
    assert [x][1..] == [];
  }

  /** Filtering out the one element between two runs that all pass. */
  lemma KeepDropsOne<T>(before: seq<T>, z: T, after: seq<T>, f: T -> bool)
    requires forall x :: x in before ==> f(x)
    requires forall x :: x in after ==> f(x)
    requires !f(z)
    ensures Keep(before + [z] + after, f) == before + after
  {
    KeepAll(before, f);
    KeepAll(after, f);
    KeepOne(z, f);
    KeepAppend(before, [z], f);
    assert Keep(before + [z], f) == before;
    KeepAppend(before + [z], after, f);
  }

  // ---------------------------------------------------------------------
  // multirange: the cartesian product of integer intervals.
  // ---------------------------------------------------------------------

  /** The number of integers in `[lo, hi]`. */
  function Width(lo: int, hi: int): nat {
    if hi < lo then 0 else hi - lo + 1
  }

  /** The number of vectors in the box `ranges`. */
  function Volume(ranges: seq<(int, int)>): nat {
    if |ranges| == 0 then 1 else Width(ranges[0].0, ranges[0].1) * Volume(ranges[1..])
  }

  /** `v` has one component per range, each inside its range. */
  predicate InBox(ranges: seq<(int, int)>, v: seq<int>) {
    |v| == |ranges| && forall k :: 0 <= k < |v| ==> ranges[k].0 <= v[k] <= ranges[k].1
  }

  ghost predicate Distinct<T>(s: seq<T>) {
    forall i, j :: 0 <= i < j < |s| ==> s[i] != s[j]
  }

  /** For each tail in turn, every `[i] + tail` with `i` rising from `lo` to `hi`. */
  function Spread(lo: int, hi: int, tails: seq<seq<int>>): (r: seq<seq<int>>)
  {
    if tails == [] then []
    else seq(Width(lo, hi), i => [lo + i] + tails[0]) + Spread(lo, hi, tails[1..])
  }

  /** `multirange`: every vector of the box, the first component varying
      fastest; there are exactly as many as the box holds. */
  function Multirange(ranges: seq<(int, int)>): (r: seq<seq<int>>)
    ensures |r| == Volume(ranges)
  {
    if |ranges| == 0 then [[]]
    else
      var tails := Multirange(ranges[1..]);
      SpreadLength(ranges[0].0, ranges[0].1, tails);
      Spread(ranges[0].0, ranges[0].1, tails)
  }

  /** Spreading a concatenation of tails spreads each part in turn. */
  lemma {:induction false} SpreadAppend(lo: int, hi: int, a: seq<seq<int>>, b: seq<seq<int>>)
    ensures Spread(lo, hi, a + b) == Spread(lo, hi, a) + Spread(lo, hi, b)
  {
    if a != [] {
      assert (a + b)[0] == a[0] && (a + b)[1..] == a[1..] + b;
      SpreadAppend(lo, hi, a[1..], b);
    } else {
      assert a + b == b;
    }
  }

  lemma {:induction false} SpreadMember(lo: int, hi: int, tails: seq<seq<int>>, v: seq<int>)
    ensures v in Spread(lo, hi, tails) <==> |v| >= 1 && lo <= v[0] <= hi && v[1..] in tails
  {
    if tails != [] {
      var block := seq(Width(lo, hi), i => [lo + i] + tails[0]);
      assert Spread(lo, hi, tails) == block + Spread(lo, hi, tails[1..]);
      SpreadMember(lo, hi, tails[1..], v);
      if v in block {
        var i :| 0 <= i < |block| && block[i] == v;
        assert v[1..] == tails[0];
      }
      if |v| >= 1 && lo <= v[0] <= hi && v[1..] == tails[0] {
        assert v == block[v[0] - lo];
      }
      if |v| >= 1 {
        assert tails == [tails[0]] + tails[1..];
      }
    }
  }

  /** A vector is produced exactly when it lies in the box. */
  lemma {:induction false} MultirangeMember(ranges: seq<(int, int)>, v: seq<int>)
    ensures v in Multirange(ranges) <==> InBox(ranges, v)
  {
    if |ranges| > 0 {
      SpreadMember(ranges[0].0, ranges[0].1, Multirange(ranges[1..]), v);
      if |v| >= 1 {
        MultirangeMember(ranges[1..], v[1..]);
        if InBox(ranges, v) {
          assert InBox(ranges[1..], v[1..]) by {
            forall k | 0 <= k < |v[1..]|
              ensures ranges[1..][k].0 <= v[1..][k] <= ranges[1..][k].1
            {
              assert ranges[k + 1].0 <= v[k + 1] <= ranges[k + 1].1;
            }
          }
        }
        if InBox(ranges[1..], v[1..]) && ranges[0].0 <= v[0] <= ranges[0].1 {
          assert InBox(ranges, v) by {
            forall k | 0 <= k < |v| ensures ranges[k].0 <= v[k] <= ranges[k].1 {
              if k > 0 {
                assert v[k] == v[1..][k - 1];
              }
            }
          }
        }
      }
    }
  }

  lemma {:induction false} SpreadLength(lo: int, hi: int, tails: seq<seq<int>>)
    ensures |Spread(lo, hi, tails)| == Width(lo, hi) * |tails|
  {
    if tails != [] {
      SpreadLength(lo, hi, tails[1..]);
      assert Width(lo, hi) * |tails| == Width(lo, hi) + Width(lo, hi) * |tails[1..]|;
    }
  }

  lemma {:induction false} SpreadAt(lo: int, hi: int, tails: seq<seq<int>>, k: int)
    requires Width(lo, hi) > 0 && 0 <= k < |Spread(lo, hi, tails)|
    ensures k / Width(lo, hi) < |tails|
    ensures Spread(lo, hi, tails)[k] == [lo + k % Width(lo, hi)] + tails[k / Width(lo, hi)]
  {
    var w := Width(lo, hi);
    assert tails != [];
    var block := seq(w, i => [lo + i] + tails[0]);
    var rest := Spread(lo, hi, tails[1..]);
    assert Spread(lo, hi, tails) == block + rest;
    if k < w {
      DivModOfDigit(0, w, k);
    } else {
      SpreadAt(lo, hi, tails[1..], k - w);
      DropOneBlock(k, w);
    }
  }

  lemma DropOneBlock(k: int, w: int)
    requires w > 0 && k >= w
    ensures (k - w) / w == k / w - 1 && (k - w) % w == k % w
  {
    var q, m := k / w, k % w;
    assert k - w == (q - 1) * w + m;
    DivModOfDigit(q - 1, w, m);
  }

  /** The first component varies fastest: vector `k` takes its first component
      from `k % w` and the rest from vector `k / w` of the remaining ranges. */
  lemma MultirangeAt(ranges: seq<(int, int)>, k: int)
    requires |ranges| > 0 && Width(ranges[0].0, ranges[0].1) > 0
    requires 0 <= k < |Multirange(ranges)|
    ensures k / Width(ranges[0].0, ranges[0].1) < |Multirange(ranges[1..])|
    ensures Multirange(ranges)[k] ==
      [ranges[0].0 + k % Width(ranges[0].0, ranges[0].1)]
        + Multirange(ranges[1..])[k / Width(ranges[0].0, ranges[0].1)]
  {
    var lo, hi := ranges[0].0, ranges[0].1;
    var t := Multirange(ranges[1..]);
    assert Multirange(ranges) == Spread(lo, hi, t);
    SpreadAt(lo, hi, t, k);
  }

  lemma {:induction false} SpreadDistinct(lo: int, hi: int, tails: seq<seq<int>>)
    requires Distinct(tails)
    ensures Distinct(Spread(lo, hi, tails))
  {
    if tails != [] {
      var w := Width(lo, hi);
      var block := seq(w, i => [lo + i] + tails[0]);
      var rest := Spread(lo, hi, tails[1..]);
      var r := block + rest;
      assert Distinct(tails[1..]);
      SpreadDistinct(lo, hi, tails[1..]);
      forall i, j | 0 <= i < j < |r| ensures r[i] != r[j] {
        if j < w {
          assert r[i][0] != r[j][0];
        } else if i < w {
          SpreadMember(lo, hi, tails[1..], r[j]);
          assert r[j] in rest;
          assert r[i][1..] == tails[0];
          assert tails[0] !in tails[1..];
        } else {
          assert r[i] == rest[i - w] && r[j] == rest[j - w];
        }
      }
    }
  }

  /** Each vector is produced once. */
  lemma {:induction false} MultirangeDistinct(ranges: seq<(int, int)>)
    ensures Distinct(Multirange(ranges))
  {
    if |ranges| > 0 {
      MultirangeDistinct(ranges[1..]);
      SpreadDistinct(ranges[0].0, ranges[0].1, Multirange(ranges[1..]));
    }
  }

  // ---------------------------------------------------------------------
  // Candidate positions of the two neighbourhood shapes.
  // ---------------------------------------------------------------------

  /** Every offset is `[-range, range]` on each of `n` axes. */
  function Cube(n: nat, range: int): seq<(int, int)> {
    seq(n, _ => (-range, range))
  }

  /** The bounds check of `dims` as a predicate value. */
  function InGrid(dims: seq<int>): seq<int> -> bool {
    q => Contains(dims, q)
  }

  predicate IsZero(o: seq<int>) {
    forall i :: 0 <= i < |o| ==> o[i] == 0
  }

  predicate NonZero(o: seq<int>) {
    !IsZero(o)
  }

  /** The Moore offsets: every non-zero vector of the cube of radius
      `range` in `n` dimensions, in multirange order. */
  function MooreOffsets(n: nat, range: int): (offsets: seq<seq<int>>)
    ensures forall k :: 0 <= k < |offsets| ==> |offsets[k]| == n
  {
    var all := Multirange(Cube(n, range));
    var offsets := Keep(all, NonZero);
    assert forall k :: 0 <= k < |offsets| ==> |offsets[k]| == n by {
      forall k | 0 <= k < |offsets| ensures |offsets[k]| == n {
        MultirangeMember(Cube(n, range), offsets[k]);
      }
    }
    offsets
  }

  /** The Moore candidates: `position + offset` for every Moore offset. */
  function MooreCandidates(position: seq<int>, range: int): (c: seq<seq<int>>)
    ensures forall q :: q in c ==> |q| == |position|
  {
    var offsets := MooreOffsets(|position|, range);
    seq(|offsets|, k requires 0 <= k < |offsets| => Shift(position, offsets[k]))
  }

  lemma Distribute(a: int, w: int)
    ensures 2 * a * w == 2 * w + 2 * (a - 1) * w
  {
  }

  /** `p` moved by `d` along axis `i` only. */
  function Step(p: seq<int>, i: int, d: int): seq<int>
    requires 0 <= i < |p|
  {
    p[i := p[i] + d]
  }

  /** The Von Neumann candidates of axis `i`: for `r` from `from` to `range`,
      the left position then the right one. */
  function AxisCandidates(p: seq<int>, i: int, from: int, range: int): (c: seq<seq<int>>)
    requires 0 <= i < |p|
    ensures forall q :: q in c ==> |q| == |p|
    ensures |c| == 2 * Width(from, range)
    decreases range - from
  {
    if from > range then []
    else [Step(p, i, -from), Step(p, i, from)] + AxisCandidates(p, i, from + 1, range)
  }

  /** The Von Neumann candidates of the axes from `i` on, axis by axis: two
      for each distance from 1 to `range` on each of those axes. */
  function StarCandidates(p: seq<int>, i: nat, range: int): (c: seq<seq<int>>)
    requires i <= |p|
    ensures forall q :: q in c ==> |q| == |p|
    ensures |c| == 2 * (|p| - i) * Width(1, range)
    decreases |p| - i
  {
    if i == |p| then []
    else
      Distribute(|p| - i, Width(1, range));
      AxisCandidates(p, i, 1, range) + StarCandidates(p, i + 1, range)
  }

  // ---------------------------------------------------------------------
  // The neighbourhoods.
  // ---------------------------------------------------------------------

  datatype Neighbourhood<!C> =
    | Moore(world: Snapshot<C>, range: int, position: seq<int>)
    | VonNeumann(world: Snapshot<C>, range: int, position: seq<int>)
    | Filtered(inner: Neighbourhood<C>, pred: C -> bool)
  {
    /** The world is consistent and the centre has one component per axis. */
    ghost predicate Wf() {
      match this
      case Filtered(inner, _) => inner.Wf()
      case _ => world.Valid() && |position| == |world.dims|
    }

    /** `filter`: a neighbourhood of the cells of this one that satisfy
        `pred` (see FilterTwice). */
    function Filter(pred: C -> bool): Neighbourhood<C> {
      Filtered(this, pred)
    }

    /** The positions a Moore or Von Neumann traversal considers, in order. */
    function Candidates(): (c: seq<seq<int>>)
      requires !Filtered?
      ensures forall q :: q in c ==> |q| == |position|
    {
      match this
      case Moore(_, range, position) => MooreCandidates(position, range)
      case VonNeumann(_, range, position) => StarCandidates(position, 0, range)
    }

    /** The positions a Moore or Von Neumann traversal reads, in order: its
        candidates that the world contains. */
    function Sites(): (r: seq<seq<int>>)
      requires !Filtered? && |position| == |world.dims|
      ensures forall k :: 0 <= k < |r| ==> IsPosition(world.dims, r[k])
      ensures forall q :: q in r ==> IsPosition(world.dims, q)
    {
      Keep(Candidates(), InGrid(world.dims))
    }

    /** One traversal: the cells yielded, in order. */
    function Cells(): seq<C>
      requires Wf()
      decreases this
    {
      match this
      case Filtered(inner, pred) => Keep(inner.Cells(), pred)
      case _ =>
        var sites := Sites();
        seq(|sites|, k requires 0 <= k < |sites| => world.Cell(sites[k]))
    }

    /** `count`: consumes one traversal, counting what it yields. */
    method Count() returns (total: nat)
      requires Wf()
      ensures total == |Cells()|
    {
      var cells := Cells();
      total := 0;
      for i := 0 to |cells|
        invariant total == i
      {
        total := total + 1;
      }
    }
  }

  /** The Moore centre and offsets: a position is read exactly when it lies
      in the grid, is not the centre, and is within `range` of the centre on
      every axis. */
  predicate InCube(centre: seq<int>, q: seq<int>, range: int) {
    |q| == |centre| && forall k :: 0 <= k < |q| ==> -range <= q[k] - centre[k] <= range
  }

  /** The componentwise difference `q - p`. */
  function Diff(q: seq<int>, p: seq<int>): (o: seq<int>)
    requires |q| == |p|
    ensures |o| == |p| && Shift(p, o) == q
  {
    seq(|p|, i requires 0 <= i < |p| => q[i] - p[i])
  }

  lemma MooreCandidateSound(position: seq<int>, range: int, q: seq<int>)
    requires q in MooreCandidates(position, range)
    ensures InCube(position, q, range) && q != position
  {
    var n := |position|;
    var all := Multirange(Cube(n, range));
    var offsets := Keep(all, NonZero);
    var c := MooreCandidates(position, range);
    var k :| 0 <= k < |c| && c[k] == q;
    var o := offsets[k];
    assert o in all && !IsZero(o);
    MultirangeMember(Cube(n, range), o);
    var i :| 0 <= i < |o| && o[i] != 0;
    assert q[i] == position[i] + o[i];
    assert forall j :: 0 <= j < n ==> q[j] - position[j] == o[j] && Cube(n, range)[j] == (-range, range);
  }

  lemma MooreCandidateComplete(position: seq<int>, range: int, q: seq<int>)
    requires InCube(position, q, range) && q != position
    ensures q in MooreCandidates(position, range)
  {
    var n := |position|;
    var all := Multirange(Cube(n, range));
    var offsets := Keep(all, NonZero);
    var o := Diff(q, position);
    assert InBox(Cube(n, range), o);
    MultirangeMember(Cube(n, range), o);
    var a :| 0 <= a < |all| && all[a] == o;
    assert !IsZero(o);
    assert o in offsets;
    var k :| 0 <= k < |offsets| && offsets[k] == o;
    assert MooreOffsets(n, range) == offsets;
    assert Shift(position, o) == q;
    assert MooreCandidates(position, range)[k] == q;
  }

  lemma MooreCandidate(position: seq<int>, range: int, q: seq<int>)
    ensures q in MooreCandidates(position, range) <==> InCube(position, q, range) && q != position
  {
    if q in MooreCandidates(position, range) {
      MooreCandidateSound(position, range, q);
    }
    if InCube(position, q, range) && q != position {
      MooreCandidateComplete(position, range, q);
    }
  }

  /** Moore: exactly the contained positions around the centre. */
  lemma MooreSites<C>(world: Snapshot<C>, range: int, position: seq<int>, q: seq<int>)
    requires |position| == |world.dims|
    ensures q in Moore(world, range, position).Sites() <==>
      IsPosition(world.dims, q) && q != position && InCube(position, q, range)
  {
    MooreCandidate(position, range, q);
  }

  /** Moore reads at most `(2 range + 1)^n - 1` positions. */
  lemma MooreCount<C>(world: Snapshot<C>, range: int, position: seq<int>)
    requires |position| == |world.dims| && range >= 0
    ensures |Moore(world, range, position).Sites()| <= Power(2 * range + 1, |position|) - 1
  {
    var n := |position|;
    var all := Multirange(Cube(n, range));
    var zero := seq(n, _ => 0);
    MultirangeMember(Cube(n, range), zero);
    KeepDrops(all, NonZero, zero);
    CubeVolume(n, range);
  }

  /** A Moore neighbourhood of range 0 is empty. */
  lemma MooreRangeZero<C>(world: Snapshot<C>, position: seq<int>)
    requires |position| == |world.dims|
    ensures Moore(world, 0, position).Sites() == []
  {
    MooreCount(world, 0, position);
    PowerOfOne(2 * 0 + 1, |position|);
  }

  function Power(b: int, e: nat): int {
    if e == 0 then 1 else b * Power(b, e - 1)
  }

  lemma {:induction false} PowerOne(e: nat)
    ensures Power(1, e) == 1
  {
    if e > 0 {
      PowerOne(e - 1);
    }
  }

  lemma PowerOfOne(b: int, e: nat)
    requires b == 1
    ensures Power(b, e) == 1
  {
    PowerOne(e);
  }

  lemma {:induction false} CubeVolume(n: nat, range: int)
    requires range >= 0
    ensures Volume(Cube(n, range)) == Power(2 * range + 1, n)
  {
    if n > 0 {
      assert Cube(n, range)[1..] == Cube(n - 1, range);
      CubeVolume(n - 1, range);
    }
  }

  function Abs(x: int): nat {
    if x < 0 then -x else x
  }

  /** `q` is `p` moved along axis `i` only, by a distance in `[lo, hi]`. */
  predicate AxisMove(p: seq<int>, q: seq<int>, i: int, lo: int, hi: int) {
    |q| == |p| && 0 <= i < |p| && lo <= Abs(q[i] - p[i]) <= hi &&
    forall j :: 0 <= j < |p| && j != i ==> q[j] == p[j]
  }

  /** Von Neumann: `q` is `centre` moved along exactly one axis by a distance
      between 1 and `range`. */
  predicate OnAxis(centre: seq<int>, q: seq<int>, range: int) {
    exists i :: 0 <= i < |centre| && AxisMove(centre, q, i, 1, range)
  }

  lemma {:induction false} AxisCandidate(p: seq<int>, i: int, from: int, range: int, q: seq<int>)
    requires 0 <= i < |p| && from >= 1
    ensures q in AxisCandidates(p, i, from, range) <==> AxisMove(p, q, i, from, range)
    decreases range - from
  {
    if from <= range {
      AxisCandidate(p, i, from + 1, range, q);
      if AxisMove(p, q, i, from, range) && Abs(q[i] - p[i]) == from {
        if q[i] < p[i] {
          assert q == Step(p, i, -from);
        } else {
          assert q == Step(p, i, from);
        }
      }
    }
  }

  lemma {:induction false} StarCandidate(p: seq<int>, i: nat, range: int, q: seq<int>)
    requires i <= |p|
    ensures q in StarCandidates(p, i, range) <==> exists a :: i <= a && AxisMove(p, q, a, 1, range)
    decreases |p| - i
  {
    if i < |p| {
      StarCandidate(p, i + 1, range, q);
      AxisCandidate(p, i, 1, range, q);
      if exists a :: i <= a && AxisMove(p, q, a, 1, range) {
        var a :| i <= a && AxisMove(p, q, a, 1, range);
        if a > i {
          assert i + 1 <= a;
        }
      }
    }
  }

  /** Von Neumann: exactly the contained positions one axis-aligned move of
      length 1 to `range` away from the centre. */
  lemma VonNeumannSites<C>(world: Snapshot<C>, range: int, position: seq<int>, q: seq<int>)
    requires |position| == |world.dims|
    ensures q in VonNeumann(world, range, position).Sites() <==>
      IsPosition(world.dims, q) && OnAxis(position, q, range)
  {
    StarCandidate(position, 0, range, q);
  }

  /** Von Neumann reads at most `2 n range` positions. */
  lemma VonNeumannCount<C>(world: Snapshot<C>, range: int, position: seq<int>)
    requires |position| == |world.dims| && range >= 0
    ensures |VonNeumann(world, range, position).Sites()| <= 2 * |position| * range
  {
    var v := VonNeumann(world, range, position);
    var c := StarCandidates(position, 0, range);
    assert v.Sites() == Keep(c, InGrid(world.dims));
    assert |c| == 2 * |position| * range by {
      assert Width(1, range) == range;
    }
  }

  /** Neither shape ever reads its own centre. */
  lemma CentreExcluded<C>(n: Neighbourhood<C>)
    requires !n.Filtered? && |n.position| == |n.world.dims|
    ensures n.position !in n.Sites()
  {
    if n.Moore? {
      MooreSites(n.world, n.range, n.position, n.position);
    } else {
      VonNeumannSites(n.world, n.range, n.position, n.position);
    }
  }

  /** A Moore or Von Neumann traversal yields one cell of its world for each
      site it reads, in the order of the sites, and reads no more sites than
      it has candidates; a filtered one yields only cells that pass. */
  lemma CellsYielded<C>(n: Neighbourhood<C>)
    requires n.Wf()
    ensures !n.Filtered? ==> |n.Cells()| == |n.Sites()| <= |n.Candidates()|
    ensures !n.Filtered? ==> forall k :: 0 <= k < |n.Cells()| ==> n.Cells()[k] == n.world.Cell(n.Sites()[k])
    ensures !n.Filtered? ==> forall k :: 0 <= k < |n.Cells()| ==> n.Cells()[k] in n.world.cells
    ensures n.Filtered? ==> forall k :: 0 <= k < |n.Cells()| ==> n.pred(n.Cells()[k])
  {
    var cells := n.Cells();
    if !n.Filtered? {
      var sites := n.Sites();
      assert |sites| <= |n.Candidates()|;
      assert cells == seq(|sites|, k requires 0 <= k < |sites| => n.world.Cell(sites[k]));
      forall k | 0 <= k < |cells| ensures cells[k] in n.world.cells {
        assert cells[k] == n.world.cells[Ravel(n.world.dims, sites[k])];
      }
    } else {
      assert cells == Keep(n.inner.Cells(), n.pred);
    }
  }

  /** Chained filters keep what the conjunction of their predicates keeps,
      and a filter never yields more than the neighbourhood it wraps. */
  lemma FilterTwice<C>(n: Neighbourhood<C>, f: C -> bool, g: C -> bool)
    requires n.Wf()
    ensures n.Filter(f).Filter(g).Cells() == n.Filter(x => f(x) && g(x)).Cells()
    ensures |n.Filter(f).Cells()| <= |n.Cells()|
    ensures forall c :: c in n.Filter(f).Cells() <==> c in n.Cells() && f(c)
  {
    var cells := n.Cells();
    assert n.Filter(f).Cells() == Keep(cells, f);
    assert n.Filter(f).Filter(g).Cells() == Keep(Keep(cells, f), g);
    assert n.Filter(x => f(x) && g(x)).Cells() == Keep(cells, x => f(x) && g(x));
    KeepKeep(cells, f, g);
    forall c | c in cells && f(c) ensures c in Keep(cells, f) {
      var k :| 0 <= k < |cells| && cells[k] == c;
    }
  }
}
