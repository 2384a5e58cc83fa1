/** The nested arrays that `dump` builds: one array per axis but the last,
    whose arrays hold the dumped values. A JavaScript array here can have
    holes (indices below its length never written), which are explicit. */
module Grids {
  import opened Indexing

  datatype Grid<T> = Hole | Leaf(value: T) | Node(children: seq<Grid<T>>)

  /** The entry at `path` of the array `cs`, reading through nested arrays;
      `Hole` where nothing was written. */
  function At<T>(cs: seq<Grid<T>>, path: seq<int>): Grid<T>
    requires |path| >= 1
    decreases |path|
  {
    var i := path[0];
    if i < 0 || i >= |cs| then Hole
    else if |path| == 1 then cs[i]
    else match cs[i]
      case Node(children) => At(children, path[1..])
      case _ => Hole
  }

  /** One store of `dump`: walk the components of `path` but the last,
      creating an empty array where an entry is missing, then assign `v` at
      the last component. Assigning past the end of an array grows it with
      holes. A value met where an array is expected stops the store. */
  function Put<T>(cs: seq<Grid<T>>, path: seq<int>, v: T): (r: seq<Grid<T>>)
    requires |path| >= 1 && forall k :: 0 <= k < |path| ==> path[k] >= 0
    decreases |path|
  {
    var i := path[0];
    var padded := if i < |cs| then cs else cs + seq(i + 1 - |cs|, _ => Hole);
    if |path| == 1 then padded[i := Leaf(v)]
    else match padded[i]
      case Hole => padded[i := Node(Put([], path[1..], v))]
      case Node(children) => padded[i := Node(Put(children, path[1..], v))]
      case Leaf(_) => cs
  }

  /** `cs` fits the dimensions: no array is longer than its axis, entries of
      the last axis are values or holes, entries of the others are arrays or
      holes. */
  predicate Shaped<T>(cs: seq<Grid<T>>, dims: seq<int>)
    requires |dims| >= 1
    decreases |dims|
  {
    |cs| <= dims[0] &&
    forall k :: 0 <= k < |cs| ==>
      match cs[k]
      case Hole => true
      case Leaf(_) => |dims| == 1
      case Node(children) => |dims| > 1 && Shaped(children, dims[1..])
  }

  /** Storing at a position of the grid keeps the grid's shape. */
  lemma {:induction false} PutShaped<T>(cs: seq<Grid<T>>, dims: seq<int>, path: seq<int>, v: T)
    requires |dims| >= 1 && Shaped(cs, dims) && IsPosition(dims, path)
    ensures Shaped(Put(cs, path, v), dims)
    decreases |dims|
  {
    var i := path[0];
    var padded := if i < |cs| then cs else cs + seq(i + 1 - |cs|, _ => Hole);
    assert Shaped(padded, dims);
    if |path| > 1 {
      assert IsPosition(dims[1..], path[1..]);
      match padded[i]
      case Hole => PutShaped([], dims[1..], path[1..], v);
      case Node(children) => PutShaped(children, dims[1..], path[1..], v);
      case Leaf(_) =>
    }
  }

  /** After a store, the path reads the stored value. */
  lemma {:induction false} PutAtSame<T>(cs: seq<Grid<T>>, dims: seq<int>, path: seq<int>, v: T)
    requires |dims| >= 1 && Shaped(cs, dims) && IsPosition(dims, path)
    ensures At(Put(cs, path, v), path) == Leaf(v)
    decreases |dims|
  {
    var i := path[0];
    var padded := if i < |cs| then cs else cs + seq(i + 1 - |cs|, _ => Hole);
    if |path| > 1 {
      assert IsPosition(dims[1..], path[1..]);
      assert Shaped(padded, dims);
      match padded[i]
      case Hole => PutAtSame([], dims[1..], path[1..], v);
      case Node(children) => PutAtSame(children, dims[1..], path[1..], v);
    }
  }

  /** A store leaves every other path of the same length as it was. */
  lemma {:induction false} PutAtOther<T>(cs: seq<Grid<T>>, dims: seq<int>, path: seq<int>, v: T, q: seq<int>)
    requires |dims| >= 1 && Shaped(cs, dims) && IsPosition(dims, path)
    requires |q| == |path| && q != path
    ensures At(Put(cs, path, v), q) == At(cs, q)
    decreases |dims|
  {
    var i := path[0];
    var padded := if i < |cs| then cs else cs + seq(i + 1 - |cs|, _ => Hole);
    assert Shaped(padded, dims);
    if |path| == 1 {
      assert q[0] != i by {
        assert q == [q[0]] && path == [i];
      }
    } else if q[0] == i {
      assert q[1..] != path[1..] by {
        assert q == [q[0]] + q[1..] && path == [i] + path[1..];
      }
      assert IsPosition(dims[1..], path[1..]);
      match padded[i]
      case Hole => PutAtOther([], dims[1..], path[1..], v, q[1..]);
      case Node(children) => PutAtOther(children, dims[1..], path[1..], v, q[1..]);
    }
  }

  /** The all-zero position. */
  function Origin(n: nat): (z: seq<int>)
    ensures |z| == n && forall k :: 0 <= k < n ==> z[k] == 0
  {
    seq(n, _ => 0)
  }

  /** A shaped grid holding a value at every position is determined by those
      values: there is exactly one such grid. */
  lemma {:induction false} Determined<T>(a: seq<Grid<T>>, b: seq<Grid<T>>, dims: seq<int>)
    requires |dims| >= 1 && ValidDims(dims)
    requires Shaped(a, dims) && Shaped(b, dims)
    requires forall q :: IsPosition(dims, q) ==> At(a, q) == At(b, q) && At(a, q).Leaf?
    ensures a == b
    decreases |dims|
  {
    var rest := Origin(|dims| - 1);
    var last := [dims[0] - 1] + rest;
    assert IsPosition(dims, last) by {
      assert forall k :: 0 <= k < |last| ==> 0 <= last[k] < dims[k];
    }
    assert |a| == dims[0] && |b| == dims[0];
    forall k | 0 <= k < dims[0]
      ensures a[k] == b[k]
    {
      var p := [k] + rest;
      assert IsPosition(dims, p) by {
        assert forall j :: 0 <= j < |p| ==> 0 <= p[j] < dims[j];
      }
      if |dims| > 1 {
        var ca, cb := a[k].children, b[k].children;
        assert ValidDims(dims[1..]);
        forall q | IsPosition(dims[1..], q)
          ensures At(ca, q) == At(cb, q) && At(ca, q).Leaf?
        {
          var full := [k] + q;
          assert full[1..] == q;
          assert IsPosition(dims, full);
        }
        Determined(ca, cb, dims[1..]);
      }
    }
  }
}
