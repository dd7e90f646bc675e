/**
 * Why the OpenMP row loop of `sobelFilter` gives the same image for every
 * thread count: iteration `y` reads only the (unchanging) input and writes
 * only output row `y`, so any set of row ranges that covers the interior
 * rows, processed in any order, yields `Filtered`.
 */
module SobelRows {
  import opened CvMat
  import opened Sobel

  /** A half-open range `[lo, hi)` of iterations of the row loop. */
  datatype RowRange = RowRange(lo: int, hi: int)

  /** The end of the row loop: `y < rows - 1`, kept at least 1 so that `[1, end)` is a range. */
  function InteriorEnd(g: Grid): int
  {
    if |g| >= 2 then |g| - 1 else 1
  }

  /** Every range lies within the iterations `[1, rows - 1)` of the row loop. */
  predicate WithinLoop(g: Grid, rs: seq<RowRange>)
  {
    forall i :: 0 <= i < |rs| ==> 1 <= rs[i].lo && rs[i].hi <= InteriorEnd(g)
  }

  /** Some range of `rs` contains iteration `y`. */
  predicate Covers(rs: seq<RowRange>, y: int)
  {
    exists r :: r in rs && r.lo <= y < r.hi
  }

  /** The output after one worker has run iterations `r.lo .. r.hi - 1`. */
  function ApplyRange(g: Grid, out: Grid, r: RowRange): (o: Grid)
    requires SameShape(g, out)
    ensures SameShape(g, o)
  {
    seq(|out|, y requires 0 <= y < |out| =>
      if r.lo <= y < r.hi && 1 <= y < |out| - 1 then FilterRow(g, y, out[y]) else out[y])
  }

  /** The output after the ranges of `rs` have been run one after the other, in the order given. */
  function ApplyRanges(g: Grid, out: Grid, rs: seq<RowRange>): (o: Grid)
    requires SameShape(g, out)
    ensures SameShape(g, o)
    decreases |rs|
  {
    if |rs| == 0 then out else ApplyRanges(g, ApplyRange(g, out, rs[0]), rs[1..])
  }

  /** Running an iteration a second time writes the same values again. */
  lemma FilterRowIdempotent(g: Grid, y: int, row: seq<int>)
    requires IsRect(g) && 1 <= y < |g| - 1 && |row| == Cols(g)
    ensures FilterRow(g, y, FilterRow(g, y, row)) == FilterRow(g, y, row)
  {
  }

  /** Row by row, the ranges only decide whether a row is computed, not how. */
  lemma {:induction false} ApplyRangesRows(g: Grid, out: Grid, rs: seq<RowRange>)
    requires SameShape(g, out) && WithinLoop(g, rs)
    ensures forall y :: 0 <= y < |out| ==>
      ApplyRanges(g, out, rs)[y] == if Covers(rs, y) && 1 <= y < |out| - 1 then FilterRow(g, y, out[y]) else out[y]
    decreases |rs|
  {
    if |rs| > 0 {
      var first := ApplyRange(g, out, rs[0]);
      var rest := rs[1..];
      assert WithinLoop(g, rest) by {
        forall i | 0 <= i < |rest| ensures 1 <= rest[i].lo && rest[i].hi <= InteriorEnd(g) {
          assert rest[i] == rs[i + 1];
        }
      }
      ApplyRangesRows(g, first, rest);
      forall y | 0 <= y < |out|
        ensures ApplyRanges(g, out, rs)[y] ==
          if Covers(rs, y) && 1 <= y < |out| - 1 then FilterRow(g, y, out[y]) else out[y]
      {
        assert Covers(rs, y) <==> (rs[0].lo <= y < rs[0].hi || Covers(rest, y)) by {
          if Covers(rs, y) {
            var r :| r in rs && r.lo <= y < r.hi;
            if r != rs[0] {
              assert r in rest;
            }
          }
          if Covers(rest, y) {
            var r :| r in rest && r.lo <= y < r.hi;
            assert r in rs;
          }
          assert rs[0] in rs;
        }
        if 1 <= y < |out| - 1 && rs[0].lo <= y < rs[0].hi && Covers(rest, y) {
          FilterRowIdempotent(g, y, out[y]);
        }
      }
    }
  }

  /**
   * Any list of row ranges that together cover the iterations
   * `[1, rows - 1)`, run in the order given, produces the filtered image.
   */
  lemma PartitionGivesFiltered(g: Grid, out: Grid, rs: seq<RowRange>)
    requires SameShape(g, out) && WithinLoop(g, rs)
    requires forall y :: 1 <= y < |g| - 1 ==> Covers(rs, y)
    ensures ApplyRanges(g, out, rs) == Filtered(g, out)
  {
    ApplyRangesRows(g, out, rs);
    var a, f := ApplyRanges(g, out, rs), Filtered(g, out);
    forall y | 0 <= y < |out|
      ensures a[y] == f[y]
    {
    }
  }

  /** Reordering the ranges does not change the result. */
  lemma AnyOrderSameResult(g: Grid, out: Grid, rs: seq<RowRange>, reordered: seq<RowRange>)
    requires SameShape(g, out) && WithinLoop(g, rs)
    requires forall y :: 1 <= y < |g| - 1 ==> Covers(rs, y)
    requires multiset(reordered) == multiset(rs)
    ensures ApplyRanges(g, out, reordered) == ApplyRanges(g, out, rs)
  {
    assert forall r :: r in reordered <==> r in rs by {
      forall r ensures r in reordered <==> r in rs {
        assert r in reordered <==> r in multiset(reordered);
        assert r in rs <==> r in multiset(rs);
      }
    }
    assert WithinLoop(g, reordered) by {
      forall i | 0 <= i < |reordered|
        ensures 1 <= reordered[i].lo && reordered[i].hi <= InteriorEnd(g)
      {
        assert reordered[i] in rs;
        var j :| 0 <= j < |rs| && rs[j] == reordered[i];
      }
    }
    forall y | 1 <= y < |g| - 1
      ensures Covers(reordered, y)
    {
      assert Covers(rs, y);
      var r :| r in rs && r.lo <= y < r.hi;
      assert r in reordered;
    }
    PartitionGivesFiltered(g, out, rs);
    PartitionGivesFiltered(g, out, reordered);
  }

  // ---------------------------------------------------------------------
  // A static schedule of the row loop over `t` threads
  // ---------------------------------------------------------------------

  /**
   * The iterations `[lo, hi)` split into `t` contiguous chunks, the first
   * ones one iteration longer when `t` does not divide the count: a static
   * schedule of `#pragma omp parallel for num_threads(t)`, whose default
   * schedule the OpenMP implementation chooses.
   */
  function Schedule(lo: int, hi: int, t: nat): seq<RowRange>
    requires lo <= hi
    decreases t
  {
    if t == 0 then []
    else
      var size := ChunkSize(hi - lo, t);
      [RowRange(lo, lo + size)] + Schedule(lo + size, hi, t - 1)
  }

  /** `ceil(n / t)`, at most `n`. */
  function ChunkSize(n: nat, t: nat): (size: nat)
    requires t >= 1
    ensures size <= n
    ensures n > 0 ==> size > 0
  {
    CeilingBound(n, t);
    (n + t - 1) / t
  }

  lemma CeilingBound(n: nat, t: nat)
    requires t >= 1
    ensures (n + t - 1) / t <= n
    ensures n > 0 ==> (n + t - 1) / t > 0
  {
    var q := (n + t - 1) / t;
    assert q * t <= n + t - 1;
    assert (n + 1) * t > n + t - 1;
  }

  /**
   * The schedule has one chunk per thread; the chunks are contiguous,
   * non-overlapping and together cover `[lo, hi)` exactly.
   */
  lemma {:induction false} ScheduleIsPartition(lo: int, hi: int, t: nat)
    requires lo <= hi && t >= 1
    ensures |Schedule(lo, hi, t)| == t
    ensures Schedule(lo, hi, t)[0].lo == lo && Schedule(lo, hi, t)[t - 1].hi == hi
    ensures forall i :: 0 <= i < t ==> Schedule(lo, hi, t)[i].lo <= Schedule(lo, hi, t)[i].hi
    ensures forall i :: 0 <= i < t - 1 ==> Schedule(lo, hi, t)[i].hi == Schedule(lo, hi, t)[i + 1].lo
    decreases t
  {
    var s := Schedule(lo, hi, t);
    var size := ChunkSize(hi - lo, t);
    if t == 1 {
      assert size == hi - lo;
    } else {
      ScheduleIsPartition(lo + size, hi, t - 1);
      var rest := Schedule(lo + size, hi, t - 1);
      assert s == [RowRange(lo, lo + size)] + rest;
      forall i | 0 <= i < t - 1
        ensures s[i].hi == s[i + 1].lo
      {
        if i > 0 {
          assert s[i] == rest[i - 1] && s[i + 1] == rest[i];
        }
      }
    }
  }

  /**
   * Every chunk lies within `[lo, hi)` and every iteration lies in some
   * chunk (in exactly one, since `ScheduleIsPartition` makes the chunks
   * contiguous and non-overlapping).
   */
  lemma {:induction false} ScheduleCovers(lo: int, hi: int, t: nat)
    requires lo <= hi && t >= 1
    ensures forall i :: 0 <= i < |Schedule(lo, hi, t)| ==>
      lo <= Schedule(lo, hi, t)[i].lo && Schedule(lo, hi, t)[i].hi <= hi
    ensures forall y :: lo <= y < hi ==> Covers(Schedule(lo, hi, t), y)
    decreases t
  {
    var s := Schedule(lo, hi, t);
    var size := ChunkSize(hi - lo, t);
    assert s[0] == RowRange(lo, lo + size);
    if t == 1 {
      assert size == hi - lo;
      forall y | lo <= y < hi ensures Covers(s, y) {
        assert s[0] in s;
      }
    } else {
      ScheduleCovers(lo + size, hi, t - 1);
      var rest := Schedule(lo + size, hi, t - 1);
      assert s == [s[0]] + rest;
      forall i | 0 <= i < |s|
        ensures lo <= s[i].lo && s[i].hi <= hi
      {
        if i > 0 {
          assert s[i] == rest[i - 1];
        }
      }
      forall y | lo <= y < hi
        ensures Covers(s, y)
      {
        if y < lo + size {
          assert s[0] in s;
        } else {
          assert Covers(rest, y);
          var r :| r in rest && r.lo <= y < r.hi;
          assert r in s;
        }
      }
    }
  }

  /**
   * Thread-count independence: for any two positive thread counts, the
   * statically scheduled row loop yields the same output, and that output
   * is the filtered image.
   */
  lemma ThreadCountIndependent(g: Grid, out: Grid, t1: nat, t2: nat)
    requires SameShape(g, out) && t1 >= 1 && t2 >= 1
    ensures ApplyRanges(g, out, Schedule(1, InteriorEnd(g), t1)) == Filtered(g, out)
    ensures ApplyRanges(g, out, Schedule(1, InteriorEnd(g), t1)) == ApplyRanges(g, out, Schedule(1, InteriorEnd(g), t2))
  {
    ScheduleCovers(1, InteriorEnd(g), t1);
    ScheduleCovers(1, InteriorEnd(g), t2);
    PartitionGivesFiltered(g, out, Schedule(1, InteriorEnd(g), t1));
    PartitionGivesFiltered(g, out, Schedule(1, InteriorEnd(g), t2));
  }

  // ---------------------------------------------------------------------
  // The row loop on the pixel buffer, one chunk at a time
  // ---------------------------------------------------------------------

  /** A grid with the cells one worker leaves after iterations `[r.lo, r.hi)` is `ApplyRange`. */
  lemma ApplyRangeFromCells(g: Grid, prior: Grid, o: Grid, r: RowRange)
    requires SameShape(g, prior) && SameShape(g, o)
    requires forall y, x :: 0 <= y < |o| && 0 <= x < Cols(o) && r.lo <= y < r.hi && Interior(g, y, x) ==>
      o[y][x] == SobelAt(g, y, x)
    requires forall y, x :: 0 <= y < |o| && 0 <= x < Cols(o) && !(r.lo <= y < r.hi && Interior(g, y, x)) ==>
      o[y][x] == prior[y][x]
    ensures o == ApplyRange(g, prior, r)
  {
    var a := ApplyRange(g, prior, r);
    forall y | 0 <= y < |o|
      ensures o[y] == a[y]
    {
      forall x | 0 <= x < |o[y]|
        ensures o[y][x] == a[y][x]
      {
        if r.lo <= y < r.hi && Interior(g, y, x) {
        } else {
        }
      }
    }
  }

  /**
   * The iterations `y = r.lo .. r.hi - 1` of the row loop, as one worker
   * thread runs them on the output buffer: the buffer afterwards is
   * `ApplyRange` of its former contents.
   */
  method FilterRange(img: array2<int>, ghost g: Grid, out: array2<int>, r: RowRange)
    requires IsRect(g) && img.Length0 == |g| && img.Length1 == Cols(g)
    requires forall i, j :: 0 <= i < |g| && 0 <= j < Cols(g) ==> img[i, j] == g[i][j]
    requires out != img && out.Length0 == img.Length0 && out.Length1 == img.Length1
    requires 1 <= r.lo <= r.hi <= InteriorEnd(g)
    modifies out
    ensures SameShape(g, old(GridOf(out))) && GridOf(out) == ApplyRange(g, old(GridOf(out)), r)
  {
    ghost var prior := GridOf(out);
    var cols := img.Length1;
    var y := r.lo;
    while y < r.hi
      invariant r.lo <= y <= r.hi
      invariant forall i, j :: r.lo <= i < y && 1 <= j < cols - 1 ==> out[i, j] == SobelAt(g, i, j)
      invariant forall i, j :: 0 <= i < out.Length0 && 0 <= j < cols && !(r.lo <= i < y && 1 <= j < cols - 1) ==>
        out[i, j] == prior[i][j]
      modifies out
    {
      FilterIteration(img, g, out, y);
      y := y + 1;
    }
    ApplyRangeFromCells(g, prior, GridOf(out), r);
  }

  /** Running one more range after a list of ranges. */
  lemma {:induction false} ApplyRangesSnoc(g: Grid, out: Grid, rs: seq<RowRange>, r: RowRange)
    requires SameShape(g, out)
    ensures ApplyRanges(g, out, rs + [r]) == ApplyRange(g, ApplyRanges(g, out, rs), r)
    decreases |rs|
  {
    if |rs| == 0 {
      assert rs + [r] == [r];
      assert [r][1..] == [];
    } else {
      assert (rs + [r])[1..] == rs[1..] + [r];
      ApplyRangesSnoc(g, ApplyRange(g, out, rs[0]), rs[1..], r);
    }
  }

  /**
   * The row loop split over `t` threads, each chunk of the static schedule
   * run to completion one after the other: for every `t >= 1` the output
   * buffer ends up holding the filtered image.
   */
  method FilterScheduled(img: array2<int>, ghost g: Grid, out: array2<int>, t: nat)
    requires IsRect(g) && img.Length0 == |g| && img.Length1 == Cols(g)
    requires forall i, j :: 0 <= i < |g| && 0 <= j < Cols(g) ==> img[i, j] == g[i][j]
    requires out != img && out.Length0 == img.Length0 && out.Length1 == img.Length1
    requires t >= 1
    modifies out
    ensures SameShape(g, old(GridOf(out))) && GridOf(out) == Filtered(g, old(GridOf(out)))
  {
    ghost var prior := GridOf(out);
    var end := if img.Length0 >= 2 then img.Length0 - 1 else 1;
    assert end == InteriorEnd(g);
    var s := Schedule(1, end, t);
    ScheduleIsPartition(1, InteriorEnd(g), t);
    ScheduleCovers(1, InteriorEnd(g), t);
    var i := 0;
    while i < |s|
      invariant 0 <= i <= |s|
      invariant GridOf(out) == ApplyRanges(g, prior, s[..i])
      modifies out
    {
      assert s[..i + 1] == s[..i] + [s[i]];
      ApplyRangesSnoc(g, prior, s[..i], s[i]);
      FilterRange(img, g, out, s[i]);
      i := i + 1;
    }
    assert s[..|s|] == s;
    ThreadCountIndependent(g, prior, t, t);
  }
}
