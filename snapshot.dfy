/** The cells of a world as one generation's readers see them: the dimensions
    and the dense state array, fixed while a round is being computed. */
module Snapshots {
  import opened Indexing

  datatype Snapshot<C> = Snapshot(dims: seq<int>, cells: seq<C>)
  {
    /** The state array holds exactly one cell per position. */
    ghost predicate Valid() {
      ValidDims(dims) && |cells| == Product(dims)
    }

    /** `getCell`: the cell stored at the flat index of `p`. */
    function Cell(p: seq<int>): C
      requires Valid() && IsPosition(dims, p)
    {
      cells[Ravel(dims, p)]
    }
  }
}
