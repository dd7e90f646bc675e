/**
 * The part of OpenCV's `cv::Mat` that the Sobel kernel relies on: a
 * single-channel 8-bit matrix whose pixel buffer may be replaced by
 * `create`, and its value view as a grid of rows.
 */
module CvMat {

  /** A matrix as a value: a sequence of rows. */
  type Grid = seq<seq<int>>

  /** Number of columns of a grid (0 for a grid without rows). */
  function Cols(g: Grid): nat
  {
    if |g| == 0 then 0 else |g[0]|
  }

  /** Every row has the same length. */
  predicate IsRect(g: Grid)
  {
    forall i :: 0 <= i < |g| ==> |g[i]| == Cols(g)
  }

  /** Two rectangular grids with the same number of rows and columns. */
  predicate SameShape(a: Grid, b: Grid)
  {
    IsRect(a) && IsRect(b) && |a| == |b| && Cols(a) == Cols(b)
  }

  /** Every sample is an unsigned 8-bit value (CV_8U). */
  predicate IsByteGrid(g: Grid)
  {
    IsRect(g) && forall i, j :: 0 <= i < |g| && 0 <= j < |g[i]| ==> 0 <= g[i][j] <= 255
  }

  /** The contents of a pixel buffer as a value. */
  ghost function GridOf(a: array2<int>): (g: Grid)
    reads a
    ensures |g| == a.Length0 && IsRect(g)
    ensures |g| > 0 ==> Cols(g) == a.Length1
    ensures forall i, j :: 0 <= i < a.Length0 && 0 <= j < a.Length1 ==> g[i][j] == a[i, j]
  {
    seq(a.Length0, i reads a requires 0 <= i < a.Length0 =>
      seq(a.Length1, j reads a requires 0 <= j < a.Length1 => a[i, j]))
  }

  /** A `cv::Mat` header: a reference to a pixel buffer that `Create` may replace. */
  class Mat {
    var data: array2<int>

    /** `cv::Mat()`: an empty matrix. */
    constructor Empty()
      ensures fresh(data) && data.Length0 == 0 && data.Length1 == 0
    {
      data := new int[0, 0];
    }

    function Rows(): nat
      reads this
    {
      data.Length0
    }

    function ColCount(): nat
      reads this
    {
      data.Length1
    }

    /** `cv::Mat::empty()`: the matrix holds no element. */
    predicate IsEmpty()
      reads this
    {
      data.Length0 == 0 || data.Length1 == 0
    }

    /** The contents of the buffer as a value. */
    ghost function Pixels(): (g: Grid)
      reads this, data
      ensures |g| == data.Length0 && IsRect(g)
      ensures |g| > 0 ==> Cols(g) == data.Length1
      ensures forall i, j :: 0 <= i < data.Length0 && 0 <= j < data.Length1 ==> g[i][j] == data[i, j]
    {
      GridOf(data)
    }

    /**
     * `cv::Mat::create(size, CV_8U)`: keeps the current buffer when it already
     * has the requested shape, and otherwise allocates a new one whose
     * contents are unspecified.
     */
    method Create(rows: nat, cols: nat)
      modifies this
      ensures Rows() == rows && ColCount() == cols
      ensures old(data.Length0) == rows && old(data.Length1) == cols ==> data == old(data)
      ensures old(data.Length0) != rows || old(data.Length1) != cols ==> fresh(data)
    {
      if data.Length0 != rows || data.Length1 != cols {
        data := new int[rows, cols];
      }
    }
  }
}
