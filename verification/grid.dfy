/** A two-dimensional `ndarray::Array2` in row-major form. The column count is
    kept separately so that a grid with no rows still has a shape. */
module Grids {

  datatype Grid<T> = Grid(rows: seq<seq<T>>, ncols: nat) {

    /** Every row has exactly `ncols` entries (an `Array2` is always rectangular). */
    predicate Valid() {
      forall i :: 0 <= i < |rows| ==> |rows[i]| == ncols
    }

    /** `Array2::column(j)`: entry i of the result is entry j of row i. */
    function Column(j: nat): (c: seq<T>)
      requires Valid() && j < ncols
      ensures |c| == |rows|
      ensures forall i :: 0 <= i < |rows| ==> c[i] == rows[i][j]
    {
      seq(|rows|, i requires 0 <= i < |rows| => rows[i][j])
    }
  }

  /** The numeric feature matrix: rows are samples, columns are features. */
  type Matrix = Grid<real>

  /** The raw table of a delimited-text file, before any parsing. */
  type Table = Grid<string>
}
