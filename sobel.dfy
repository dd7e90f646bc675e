/**
 * The Sobel gradient kernel of common/sobel.cpp: the process-wide thread
 * count set by `sobelSetThreads`, the per-pixel gradient magnitude, and
 * `sobelFilter`, which fills the interior of the output matrix in place.
 */
module Sobel {
  import opened CvMat

  // ---------------------------------------------------------------------
  // sobelSetThreads and the global numThreads
  // ---------------------------------------------------------------------

  /** The value of `numThreads` after `sobelSetThreads(n)` from `current`. */
  function SetThreadsResult(current: int, n: int): int
  {
    if current > 0 then n else current
  }

  /** The value of `numThreads` after a series of `sobelSetThreads` calls. */
  function SetThreadsAll(current: int, calls: seq<int>): int
    decreases calls
  {
    if |calls| == 0 then current else SetThreadsAll(SetThreadsResult(current, calls[0]), calls[1..])
  }

  /** Once `numThreads` is zero or negative, no call changes it again. */
  lemma {:induction false} FrozenOnceNonPositive(current: int, calls: seq<int>)
    requires current <= 0
    ensures SetThreadsAll(current, calls) == current
  {
    if |calls| > 0 {
      FrozenOnceNonPositive(current, calls[1..]);
    }
  }

  /** From a positive count, positive arguments are stored: the last one wins. */
  lemma {:induction false} PositiveCallsStored(current: int, calls: seq<int>)
    requires current > 0 && |calls| > 0
    requires forall i :: 0 <= i < |calls| ==> calls[i] > 0
    ensures SetThreadsAll(current, calls) == calls[|calls| - 1]
    decreases calls
  {
    if |calls| > 1 {
      PositiveCallsStored(calls[0], calls[1..]);
    }
  }

  /**
   * A call with a non-positive argument, made while the count is positive,
   * freezes it at that argument for every later call.
   */
  lemma NonPositiveArgumentFreezes(current: int, n: int, later: seq<int>)
    requires current > 0 && n <= 0
    ensures SetThreadsAll(current, [n] + later) == n
  {
    assert ([n] + later)[1..] == later;
    FrozenOnceNonPositive(n, later);
  }

  /** Two series of calls, one after the other. */
  lemma {:induction false} SetThreadsAllAppend(current: int, calls: seq<int>, more: seq<int>)
    ensures SetThreadsAll(current, calls + more) == SetThreadsAll(SetThreadsAll(current, calls), more)
    decreases calls
  {
    if |calls| > 0 {
      assert (calls + more)[1..] == calls[1..] + more;
      SetThreadsAllAppend(SetThreadsResult(current, calls[0]), calls[1..], more);
    } else {
      assert calls + more == more;
    }
  }

  /** The process-wide `static int numThreads` of common/sobel.cpp. */
  class ThreadSetting {
    var numThreads: int

    /** Static initialisation: `numThreads = 1`. */
    constructor ()
      ensures numThreads == 1
    {
      numThreads := 1;
    }

    /** `sobelSetThreads(n)`: stores `n` only while the stored value is positive. */
    method SetThreads(n: int)
      modifies this
      ensures old(numThreads) > 0 ==> numThreads == n
      ensures old(numThreads) <= 0 ==> numThreads == old(numThreads)
      ensures numThreads == SetThreadsResult(old(numThreads), n)
    {
      if numThreads > 0 {
        numThreads := n;
      }
    }
  }

  // ---------------------------------------------------------------------
  // The kernel
  // ---------------------------------------------------------------------

  /** The horizontal kernel `gx`, row-major, indexed by `(ky + 1) * 3 + (kx + 1)`. */
  const GX: seq<int> := [-1, 0, 1, -2, 0, 2, -1, 0, 1]
  /** The vertical kernel `gy`, laid out like `GX`. */
  const GY: seq<int> := [-1, -2, -1, 0, 0, 0, 1, 2, 1]

  /** `(y, x)` is a pixel whose 3x3 neighbourhood lies inside `g`. */
  predicate Interior(g: Grid, y: int, x: int)
  {
    IsRect(g) && 1 <= y < |g| - 1 && 1 <= x < Cols(g) - 1
  }

  /** Tap `k` of the 3x3 window centred on `(y, x)`: row offset `k / 3 - 1`, column offset `k % 3 - 1`. */
  function Tap(g: Grid, y: int, x: int, w: seq<int>, k: nat): int
    requires Interior(g, y, x) && k < 9 && |w| == 9
  {
    g[y - 1 + k / 3][x - 1 + k % 3] * w[k]
  }

  /** The correlation of the first `n` taps of the window with the weights `w`. */
  function Correlate(g: Grid, y: int, x: int, w: seq<int>, n: nat): int
    requires Interior(g, y, x) && n <= 9 && |w| == 9
  {
    if n == 0 then 0 else Correlate(g, y, x, w, n - 1) + Tap(g, y, x, w, n - 1)
  }

  /** Adding the tap at offset `(ky, kx)` extends the correlation by one step. */
  lemma CorrelateNext(g: Grid, y: int, x: int, w: seq<int>, ky: int, kx: int, pixel: int)
    requires Interior(g, y, x) && |w| == 9 && -1 <= ky <= 1 && -1 <= kx <= 1
    requires pixel == g[y + ky][x + kx]
    ensures Correlate(g, y, x, w, 3 * ky + kx + 5) ==
      Correlate(g, y, x, w, 3 * ky + kx + 4) + pixel * w[(ky + 1) * 3 + (kx + 1)]
  {
    var k := 3 * ky + kx + 4;
    assert k / 3 == ky + 1 && k % 3 == kx + 1;
  }

  /** `sumX`: the unflipped correlation with `gx`. */
  function GradX(g: Grid, y: int, x: int): int
    requires Interior(g, y, x)
  {
    Correlate(g, y, x, GX, 9)
  }

  /** `sumY`: the unflipped correlation with `gy`. */
  function GradY(g: Grid, y: int, x: int): int
    requires Interior(g, y, x)
  {
    Correlate(g, y, x, GY, 9)
  }

  /** The integer floor square root, which is what `(int) std::sqrt(s)` yields for `s < 2^52`. */
  function ISqrt(n: nat): (r: nat)
    ensures r * r <= n < (r + 1) * (r + 1)
  {
    if n < 4 then
      (if n == 0 then 0 else 1)
    else
      var h := ISqrt(n / 4);
      ISqrtStep(n, h);
      if (2 * h + 1) * (2 * h + 1) <= n then 2 * h + 1 else 2 * h
  }

  /** Doubling the root of `n / 4` brackets the root of `n`. */
  lemma ISqrtStep(n: nat, h: nat)
    requires h * h <= n / 4 < (h + 1) * (h + 1)
    ensures (2 * h) * (2 * h) <= n < (2 * h + 2) * (2 * h + 2)
  {
    var q := n / 4;
    assert (2 * h) * (2 * h) == 4 * (h * h);
    assert (2 * h + 2) * (2 * h + 2) == 4 * ((h + 1) * (h + 1));
    assert n < 4 * q + 4;
  }

  lemma SquareNonNegative(a: int)
    ensures a * a >= 0
  {
    if a < 0 {
      assert a * a == (-a) * (-a);
    }
  }

  /** `std::min(255, (int) std::sqrt(sumX * sumX + sumY * sumY))`. */
  function Magnitude(sumX: int, sumY: int): (m: int)
    ensures 0 <= m <= 255
    ensures m == 255 <==> sumX * sumX + sumY * sumY >= 255 * 255
    ensures m < 255 ==> m * m <= sumX * sumX + sumY * sumY < (m + 1) * (m + 1)
  {
    SquareNonNegative(sumX);
    SquareNonNegative(sumY);
    var s := sumX * sumX + sumY * sumY;
    var r := ISqrt(s);
    SaturationThreshold(s, r);
    if r >= 255 then 255 else r
  }

  /** The floor root of `s` reaches 255 exactly when `s` reaches 255 * 255. */
  lemma SaturationThreshold(s: nat, r: nat)
    requires r * r <= s < (r + 1) * (r + 1)
    ensures r >= 255 <==> s >= 255 * 255
  {
    if r >= 255 {
      SquareMonotone(255, r);
    } else {
      SquareMonotone(r + 1, 255);
    }
  }

  lemma SquareMonotone(a: nat, b: nat)
    requires a <= b
    ensures a * a <= b * b
  {
    assert a * a <= a * b;
    assert a * b <= b * b;
  }

  /** The value `sobelFilter` writes at interior pixel `(y, x)`. */
  function SobelAt(g: Grid, y: int, x: int): (v: int)
    requires Interior(g, y, x)
    ensures 0 <= v <= 255
  {
    Magnitude(GradX(g, y, x), GradY(g, y, x))
  }

  // ---------------------------------------------------------------------
  // Properties of the kernel
  // ---------------------------------------------------------------------

  /** Sum of the positive weights among the first `n`. */
  function PositiveWeight(w: seq<int>, n: nat): int
    requires n <= |w|
  {
    if n == 0 then 0 else PositiveWeight(w, n - 1) + (if w[n - 1] > 0 then w[n - 1] else 0)
  }

  /** Sum of the magnitudes of the negative weights among the first `n`. */
  function NegativeWeight(w: seq<int>, n: nat): int
    requires n <= |w|
  {
    if n == 0 then 0 else NegativeWeight(w, n - 1) + (if w[n - 1] < 0 then -w[n - 1] else 0)
  }

  /** Sum of the first `n` weights. */
  function WeightSum(w: seq<int>, n: nat): int
    requires n <= |w|
  {
    if n == 0 then 0 else WeightSum(w, n - 1) + w[n - 1]
  }

  /** On an 8-bit image the correlation lies between -255 times the negative and 255 times the positive weight. */
  lemma {:induction false} CorrelateBounds(g: Grid, y: int, x: int, w: seq<int>, n: nat)
    requires Interior(g, y, x) && IsByteGrid(g) && n <= 9 && |w| == 9
    ensures -255 * NegativeWeight(w, n) <= Correlate(g, y, x, w, n) <= 255 * PositiveWeight(w, n)
  {
    if n > 0 {
      CorrelateBounds(g, y, x, w, n - 1);
      ProductBounds(g[y - 1 + (n - 1) / 3][x - 1 + (n - 1) % 3], w[n - 1]);
    }
  }

  /** An 8-bit sample times a weight lies between 255 times its negative and positive parts. */
  lemma ProductBounds(p: int, t: int)
    requires 0 <= p <= 255
    ensures (if t < 0 then 255 * t else 0) <= p * t <= (if t > 0 then 255 * t else 0)
  {
    if t > 0 {
      assert p * t <= 255 * t;
    } else if t < 0 {
      assert p * (-t) <= 255 * (-t);
    }
  }

  /**
   * On an 8-bit image each gradient lies in [-1020, 1020], so the sum of
   * squares is at most 2 * 1020 * 1020: it never overflows a 32-bit int and
   * is an exact double, which makes `std::sqrt` followed by the cast equal
   * to `ISqrt`.
   */
  lemma GradientBounds(g: Grid, y: int, x: int)
    requires Interior(g, y, x) && IsByteGrid(g)
    ensures -1020 <= GradX(g, y, x) <= 1020 && -1020 <= GradY(g, y, x) <= 1020
    ensures 0 <= GradX(g, y, x) * GradX(g, y, x) + GradY(g, y, x) * GradY(g, y, x) <= 2 * 1020 * 1020
    ensures GradX(g, y, x) * GradX(g, y, x) + GradY(g, y, x) * GradY(g, y, x) < 0x8000_0000
  {
    CorrelateBounds(g, y, x, GX, 9);
    CorrelateBounds(g, y, x, GY, 9);
    assert PositiveWeight(GX, 9) == 4 && NegativeWeight(GX, 9) == 4;
    assert PositiveWeight(GY, 9) == 4 && NegativeWeight(GY, 9) == 4;
    var a, b := GradX(g, y, x), GradY(g, y, x);
    SquareBound(a, 1020);
    SquareBound(b, 1020);
  }

  lemma SquareBound(a: int, k: nat)
    requires -(k as int) <= a <= k
    ensures 0 <= a * a <= k * k
  {
    if a < 0 {
      assert a * a == (-a) * (-a);
      SquareMonotone(-a, k);
    } else {
      SquareMonotone(a, k);
    }
  }

  /** Every weight sums to zero in both kernels. */
  lemma KernelsSumToZero()
    ensures WeightSum(GX, 9) == 0 && WeightSum(GY, 9) == 0
  {
    assert WeightSum(GX, 3) == 0 && WeightSum(GX, 6) == 0;
    assert WeightSum(GY, 3) == -4 && WeightSum(GY, 6) == -4;
  }

  /** A window whose nine samples all equal `c` correlates to `c` times the weight sum. */
  lemma {:induction false} CorrelateConstant(g: Grid, y: int, x: int, w: seq<int>, n: nat, c: int)
    requires Interior(g, y, x) && n <= 9 && |w| == 9
    requires forall i, j :: y - 1 <= i <= y + 1 && x - 1 <= j <= x + 1 ==> g[i][j] == c
    ensures Correlate(g, y, x, w, n) == c * WeightSum(w, n)
  {
    if n > 0 {
      CorrelateConstant(g, y, x, w, n - 1, c);
      assert g[y - 1 + (n - 1) / 3][x - 1 + (n - 1) % 3] == c;
      assert c * WeightSum(w, n) == c * WeightSum(w, n - 1) + c * w[n - 1];
    }
  }

  /** A flat neighbourhood has no gradient: the output there is 0. */
  lemma ConstantWindowGivesZero(g: Grid, y: int, x: int, c: int)
    requires Interior(g, y, x)
    requires forall i, j :: y - 1 <= i <= y + 1 && x - 1 <= j <= x + 1 ==> g[i][j] == c
    ensures GradX(g, y, x) == 0 && GradY(g, y, x) == 0
    ensures SobelAt(g, y, x) == 0
  {
    CorrelateConstant(g, y, x, GX, 9, c);
    CorrelateConstant(g, y, x, GY, 9, c);
    KernelsSumToZero();
  }

  // ---------------------------------------------------------------------
  // The filtered image as a value
  // ---------------------------------------------------------------------

  /** Row `y` of the output after iteration `y`: interior columns computed, the two border columns kept. */
  function FilterRow(g: Grid, y: int, row: seq<int>): (r: seq<int>)
    requires IsRect(g) && 1 <= y < |g| - 1 && |row| == Cols(g)
  {
    seq(|row|, x requires 0 <= x < |row| => if 1 <= x < |row| - 1 then SobelAt(g, y, x) else row[x])
  }

  /** The whole output after `sobelFilter(g, out)` when `out` already had the shape of `g`. */
  function Filtered(g: Grid, out: Grid): (r: Grid)
    requires SameShape(g, out)
  {
    seq(|out|, y requires 0 <= y < |out| => if 1 <= y < |out| - 1 then FilterRow(g, y, out[y]) else out[y])
  }

  /**
   * What `Filtered` means: the same shape as the input, the Sobel magnitude
   * on every interior pixel, and the prior contents on the border.
   */
  lemma FilteredSpec(g: Grid, out: Grid)
    requires SameShape(g, out)
    ensures SameShape(g, Filtered(g, out))
    ensures forall y, x :: Interior(g, y, x) ==> Filtered(g, out)[y][x] == SobelAt(g, y, x)
    ensures forall y, x :: 0 <= y < |out| && 0 <= x < Cols(out) && !Interior(g, y, x) ==>
      Filtered(g, out)[y][x] == out[y][x]
  {
  }

  /** Conversely, a grid with those cells is the filtered image. */
  lemma FilteredFromCells(g: Grid, prior: Grid, r: Grid)
    requires SameShape(g, prior) && SameShape(g, r)
    requires forall y, x :: Interior(g, y, x) ==> r[y][x] == SobelAt(g, y, x)
    requires forall y, x :: 0 <= y < |r| && 0 <= x < Cols(r) && !Interior(g, y, x) ==> r[y][x] == prior[y][x]
    ensures r == Filtered(g, prior)
  {
    var f := Filtered(g, prior);
    forall y | 0 <= y < |r|
      ensures r[y] == f[y]
    {
      forall x | 0 <= x < |r[y]|
        ensures r[y][x] == f[y][x]
      {
        if Interior(g, y, x) {
        } else {
        }
      }
    }
  }

  /** A constant image yields 0 on every interior pixel. */
  lemma ConstantImageGivesZero(g: Grid, out: Grid, c: int)
    requires SameShape(g, out)
    requires forall i, j :: 0 <= i < |g| && 0 <= j < Cols(g) ==> g[i][j] == c
    ensures forall y, x :: Interior(g, y, x) ==> Filtered(g, out)[y][x] == 0
  {
    FilteredSpec(g, out);
    forall y, x | Interior(g, y, x)
      ensures SobelAt(g, y, x) == 0
    {
      assert forall i, j :: y - 1 <= i <= y + 1 && x - 1 <= j <= x + 1 ==> g[i][j] == c;
      ConstantWindowGivesZero(g, y, x, c);
    }
  }

  /** Images with fewer than three rows or columns come out unchanged. */
  lemma SmallImageUnchanged(g: Grid, out: Grid)
    requires SameShape(g, out) && (|g| < 3 || Cols(g) < 3)
    ensures Filtered(g, out) == out
  {
    var r := Filtered(g, out);
    forall y | 0 <= y < |out|
      ensures r[y] == out[y]
    {
      if 1 <= y < |out| - 1 {
        assert Cols(g) < 3;
        forall x | 0 <= x < |out[y]|
          ensures r[y][x] == out[y][x]
        {
        }
      }
    }
  }

  // ---------------------------------------------------------------------
  // sobelFilter
  // ---------------------------------------------------------------------

  /**
   * The two inner loops of `sobelFilter` over `ky` and `kx`: the
   * correlations `sumX` and `sumY` of the 3x3 window centred on `(y, x)`.
   */
  method WindowSums(img: array2<int>, ghost g: Grid, y: int, x: int) returns (sumX: int, sumY: int)
    requires Interior(g, y, x) && img.Length0 == |g| && img.Length1 == Cols(g)
    requires forall i, j :: 0 <= i < |g| && 0 <= j < Cols(g) ==> img[i, j] == g[i][j]
    ensures sumX == GradX(g, y, x) && sumY == GradY(g, y, x)
  {
    sumX, sumY := 0, 0;
    ghost var k: nat := 0;
    var ky := -1;
    while ky <= 1
      invariant -1 <= ky <= 2 && k == 3 * ky + 3
      invariant sumX == Correlate(g, y, x, GX, k) && sumY == Correlate(g, y, x, GY, k)
    {
      var kx := -1;
      while kx <= 1
        invariant -1 <= kx <= 2 && k == 3 * ky + kx + 4
        invariant sumX == Correlate(g, y, x, GX, k) && sumY == Correlate(g, y, x, GY, k)
      {
        var pixel := img[y + ky, x + kx];
        CorrelateNext(g, y, x, GX, ky, kx, pixel);
        CorrelateNext(g, y, x, GY, ky, kx, pixel);
        sumX := sumX + pixel * GX[(ky + 1) * 3 + (kx + 1)];
        sumY := sumY + pixel * GY[(ky + 1) * 3 + (kx + 1)];
        kx, k := kx + 1, k + 1;
      }
      ky := ky + 1;
    }
  }

  /**
   * One iteration `y` of the parallel row loop: it reads input rows
   * `y - 1 .. y + 1` and writes only the interior cells of output row `y`.
   */
  method FilterIteration(img: array2<int>, ghost g: Grid, out: array2<int>, y: int)
    requires IsRect(g) && 1 <= y < |g| - 1 && img.Length0 == |g| && img.Length1 == Cols(g)
    requires forall i, j :: 0 <= i < |g| && 0 <= j < Cols(g) ==> img[i, j] == g[i][j]
    requires out != img && out.Length0 == img.Length0 && out.Length1 == img.Length1
    modifies out
    ensures forall j :: 1 <= j < out.Length1 - 1 ==> out[y, j] == SobelAt(g, y, j)
    ensures forall i, j :: 0 <= i < out.Length0 && 0 <= j < out.Length1 && !(i == y && 1 <= j < out.Length1 - 1) ==>
      out[i, j] == old(out[i, j])
  {
    var cols := img.Length1;
    var x := 1;
    while x < cols - 1
      invariant 1 <= x <= if cols >= 2 then cols - 1 else 1
      invariant forall j :: 1 <= j < x ==> out[y, j] == SobelAt(g, y, j)
      invariant forall i, j :: 0 <= i < out.Length0 && 0 <= j < cols && !(i == y && 1 <= j < x) ==>
        out[i, j] == old(out[i, j])
      modifies out
    {
      var sumX, sumY := WindowSums(img, g, y, x);
      out[y, x] := Magnitude(sumX, sumY);
      x := x + 1;
    }
  }

  /**
   * The row loop of `sobelFilter`, run sequentially: iterations
   * `y = 1 .. rows - 2` fill every interior cell and leave the border.
   */
  method FilterRows(img: array2<int>, ghost g: Grid, out: array2<int>)
    requires IsRect(g) && img.Length0 == |g| && img.Length1 == Cols(g)
    requires forall i, j :: 0 <= i < |g| && 0 <= j < Cols(g) ==> img[i, j] == g[i][j]
    requires out != img && out.Length0 == img.Length0 && out.Length1 == img.Length1
    modifies out
    ensures forall i, j :: Interior(g, i, j) ==> out[i, j] == SobelAt(g, i, j)
    ensures forall i, j :: 0 <= i < out.Length0 && 0 <= j < out.Length1 && !Interior(g, i, j) ==>
      out[i, j] == old(out[i, j])
  {
    var rows, cols := img.Length0, img.Length1;
    var y := 1;
    while y < rows - 1
      invariant 1 <= y <= if rows >= 2 then rows - 1 else 1
      invariant forall i, j :: 1 <= i < y && 1 <= j < cols - 1 ==> out[i, j] == SobelAt(g, i, j)
      invariant forall i, j :: 0 <= i < rows && 0 <= j < cols && !(1 <= i < y && 1 <= j < cols - 1) ==>
        out[i, j] == old(out[i, j])
      modifies out
    {
      FilterIteration(img, g, out, y);
      y := y + 1;
    }
  }

  /**
   * `sobelFilter(input, output)`, with the row loop run sequentially.
   * The output is sized like the input; each interior pixel receives the
   * saturated gradient magnitude; the border and every cell of a matrix
   * with fewer than three rows or columns are left as they were. The input
   * is only read.
   */
  method SobelFilter(input: Mat, output: Mat)
    requires input != output && input.data != output.data
    requires IsByteGrid(input.Pixels())
    modifies output, output.data
    ensures output.Rows() == input.Rows() && output.ColCount() == input.ColCount()
    ensures input.Pixels() == old(input.Pixels())
    ensures forall y, x :: Interior(input.Pixels(), y, x) ==> output.data[y, x] == SobelAt(input.Pixels(), y, x)
    ensures old(output.Rows()) == input.Rows() && old(output.ColCount()) == input.ColCount() ==>
      output.data == old(output.data) &&
      forall y, x :: 0 <= y < output.Rows() && 0 <= x < output.ColCount() && !Interior(input.Pixels(), y, x) ==>
        output.data[y, x] == old(output.data[y, x])
    ensures old(output.Rows()) == input.Rows() && old(output.ColCount()) == input.ColCount() ==>
      output.Pixels() == Filtered(input.Pixels(), old(output.Pixels()))
  {
    ghost var g := input.Pixels();
    var img := input.data;
    var rows, cols := img.Length0, img.Length1;
    output.Create(rows, cols);
    if output.IsEmpty() {
      SmallImageUnchanged(g, output.Pixels());
      return;
    }
    ghost var prior := output.Pixels();
    FilterRows(img, g, output.data);
    if old(output.Rows()) == rows && old(output.ColCount()) == cols {
      FilteredFromCells(g, prior, output.Pixels());
    }
  }
}
