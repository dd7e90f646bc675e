/**
 * The state that `CameraActivity` (Android) changes step by step: the
 * selected camera, the frame counter and the start of the current fps
 * measurement, plus the slider that forwards a core count to
 * `sobelSetThreads`. Clock readings (`System.currentTimeMillis()`), the
 * frame's format and its grayscale conversion reach the methods as
 * parameters.
 */
module CameraActivity {
  import opened Arith
  import opened CvMat
  import opened Sobel

  datatype Option<T> = None | Some(value: T)

  /** `CameraSelector.DEFAULT_BACK_CAMERA` and `CameraSelector.DEFAULT_FRONT_CAMERA`. */
  datatype CameraSelector = DefaultBackCamera | DefaultFrontCamera

  /** The selector after `toggleCamera`. */
  function Toggled(s: CameraSelector): CameraSelector
  {
    if s == DefaultBackCamera then DefaultFrontCamera else DefaultBackCamera
  }

  /** Toggling always changes the camera, and toggling twice restores it. */
  lemma ToggleIsInvolution(s: CameraSelector)
    ensures Toggled(s) != s
    ensures Toggled(Toggled(s)) == s
  {
  }

  /** After `n` taps the back camera is selected exactly when `n` is even. */
  function ToggledTimes(s: CameraSelector, n: nat): CameraSelector
  {
    if n == 0 then s else Toggled(ToggledTimes(s, n - 1))
  }

  lemma {:induction false} ToggleParity(s: CameraSelector, n: nat)
    ensures ToggledTimes(s, n) == (if n % 2 == 0 then s else Toggled(s))
  {
    if n > 0 {
      ToggleParity(s, n - 1);
    }
  }

  /**
   * The transform applied to the filtered bitmap: a clockwise rotation in
   * degrees, followed by a horizontal mirror when `mirrored`.
   */
  datatype Orientation = Orientation(rotation: int, mirrored: bool)

  /** The rotation and mirror `processFrame` chooses for the selected camera. */
  function OrientationFor(s: CameraSelector): Orientation
  {
    if s == DefaultFrontCamera then Orientation(270, true) else Orientation(90, false)
  }

  /**
   * Only the front camera's image is mirrored; both are turned a quarter
   * turn, in opposite directions, so switching camera turns the result by
   * half a turn and flips the mirror.
   */
  lemma OrientationChoice(s: CameraSelector)
    ensures OrientationFor(s).mirrored <==> s == DefaultFrontCamera
    ensures OrientationFor(s).rotation % 180 == 90
    ensures (OrientationFor(Toggled(s)).rotation - OrientationFor(s).rotation) % 360 == 180
    ensures OrientationFor(Toggled(s)).mirrored != OrientationFor(s).mirrored
  {
  }

  /** `ImageFormat.YUV_420_888`. */
  const YUV_420_888: int := 0x23

  /**
   * `(int) (frameCount * 1000 / elapsedTime)`: the product is computed in
   * 32-bit `int` arithmetic, the division in `long` arithmetic, truncating.
   */
  function FpsValue(frameCount: int, elapsed: int): int
    requires elapsed != 0
  {
    Wrap32(TruncDiv(Wrap32(frameCount * 1000), elapsed))
  }

  /**
   * For a count that does not overflow the product, the reported value is
   * the whole number of frames per second over the measured interval, and
   * since the interval exceeds a second it is at most the frame count.
   */
  lemma FpsIsFrameRate(frameCount: int, elapsed: int)
    requires 0 <= frameCount <= INT32_MAX / 1000 && elapsed > 1000
    ensures FpsValue(frameCount, elapsed) * elapsed <= frameCount * 1000 < (FpsValue(frameCount, elapsed) + 1) * elapsed
    ensures 0 <= FpsValue(frameCount, elapsed) <= frameCount
  {
    var p := frameCount * 1000;
    ProductFits(frameCount);
    TruncDivNonNegative(p, elapsed);
    DivisionBounds(p, elapsed);
    QuotientAtMostCount(frameCount, elapsed);
  }

  lemma ProductFits(frameCount: int)
    requires 0 <= frameCount <= INT32_MAX / 1000
    ensures 0 <= frameCount * 1000 <= INT32_MAX
  {
  }

  lemma DivisionBounds(p: int, d: int)
    requires p >= 0 && d > 0
    ensures 0 <= p / d
    ensures (p / d) * d <= p < (p / d + 1) * d
  {
  }

  lemma QuotientAtMostCount(frameCount: int, elapsed: int)
    requires frameCount >= 0 && elapsed > 1000
    ensures (frameCount * 1000) / elapsed <= frameCount
  {
    var q := (frameCount * 1000) / elapsed;
    DivisionBounds(frameCount * 1000, elapsed);
    if q > frameCount {
      MultiplyMonotone(frameCount + 1, q, elapsed);
      MultiplyMonotone(1000, elapsed, frameCount + 1);
      assert false;
    }
  }

  lemma MultiplyMonotone(a: int, b: int, c: int)
    requires a <= b && c >= 0
    ensures a * c <= b * c
  {
  }

  /** What `processFrame` did with a frame of the YUV format. */
  datatype Delivered = Delivered(sobel: Mat, orientation: Orientation)

  class CameraActivityState {
    var cameraSelector: CameraSelector
    var frameCount: int
    /** Milliseconds, as `System.currentTimeMillis()`. */
    var startTime: int
    /** `Runtime.getRuntime().availableProcessors()`, the slider's maximum. */
    const availableProcessors: nat
    /** The process-wide thread count behind `JNIHelper.setCores`. */
    const settings: ThreadSetting

    /** The field initialisers, with the clock reading taken at construction. */
    constructor (settings: ThreadSetting, availableProcessors: nat, now: int)
      ensures cameraSelector == DefaultBackCamera && frameCount == 0 && startTime == now
      ensures this.settings == settings && this.availableProcessors == availableProcessors
    {
      cameraSelector := DefaultBackCamera;
      frameCount := 0;
      startTime := now;
      this.availableProcessors := availableProcessors;
      this.settings := settings;
    }

    /** `toggleCamera`: switches between the back and the front camera (rebinding is left out). */
    method ToggleCamera()
      modifies this
      ensures cameraSelector == Toggled(old(cameraSelector))
      ensures frameCount == old(frameCount) && startTime == old(startTime)
    {
      if cameraSelector == DefaultBackCamera {
        cameraSelector := DefaultFrontCamera;
      } else {
        cameraSelector := DefaultBackCamera;
      }
    }

    /**
     * `processFrame(image)`: counts every frame (wrapping as a Java `int`);
     * only a YUV_420_888 frame is filtered, delivered with the orientation
     * of the selected camera, and closed. `gray` is the frame's luma plane
     * as `Imgproc.cvtColor` would produce it.
     */
    method ProcessFrame(format: int, gray: Mat) returns (closed: bool, delivered: Option<Delivered>)
      requires format == YUV_420_888 ==> IsByteGrid(gray.Pixels())
      modifies this
      ensures frameCount == Wrap32(old(frameCount) + 1)
      ensures cameraSelector == old(cameraSelector) && startTime == old(startTime)
      ensures closed <==> format == YUV_420_888
      ensures delivered.Some? <==> format == YUV_420_888
      ensures delivered.Some? ==>
        delivered.value.orientation == OrientationFor(cameraSelector) &&
        delivered.value.sobel.Rows() == gray.Rows() && delivered.value.sobel.ColCount() == gray.ColCount() &&
        forall y, x :: Interior(gray.Pixels(), y, x) ==> delivered.value.sobel.data[y, x] == SobelAt(gray.Pixels(), y, x)
    {
      frameCount := Wrap32(frameCount + 1);
      if format != YUV_420_888 {
        return false, None;
      }
      // JNIHelper.sobelFilterOnNewMat: a new, empty Mat filled by sobelFilter.
      var sobel := new Mat.Empty();
      SobelFilter(gray, sobel);
      return true, Some(Delivered(sobel, OrientationFor(cameraSelector)));
    }

    /**
     * One run of `fpsRunnable`: when more than 1000 ms have passed it
     * reports the integer frame rate and starts a new measurement;
     * otherwise nothing changes.
     */
    method FpsTick(now: int) returns (report: Option<int>)
      modifies this
      ensures now - old(startTime) > 1000 ==>
        report == Some(FpsValue(old(frameCount), now - old(startTime))) && frameCount == 0 && startTime == now
      ensures now - old(startTime) <= 1000 ==>
        report == None && frameCount == old(frameCount) && startTime == old(startTime)
      ensures cameraSelector == old(cameraSelector)
    {
      var elapsed := now - startTime;
      if elapsed > 1000 {
        report := Some(FpsValue(frameCount, elapsed));
        frameCount := 0;
        startTime := now;
      } else {
        report := None;
      }
    }

    /** The slider's `onProgressChanged`: its value goes unchanged to `sobelSetThreads`. */
    method OnProgressChanged(progress: int)
      requires 0 <= progress <= availableProcessors
      modifies settings
      ensures settings.numThreads == SetThreadsResult(old(settings.numThreads), progress)
    {
      settings.SetThreads(progress);
    }
  }

  /**
   * Starting from the initial count of 1, slider positions above 0 are
   * stored as they come, but the first time the slider reaches 0 the count
   * becomes 0 and no later position changes it.
   */
  lemma SliderZeroIsFinal(before: seq<int>, after: seq<int>)
    requires forall i :: 0 <= i < |before| ==> before[i] > 0
    ensures SetThreadsAll(1, before + [0] + after) == 0
  {
    SetThreadsAllAppend(1, before, [0] + after);
    assert before + [0] + after == before + ([0] + after);
    var v := SetThreadsAll(1, before);
    if |before| > 0 {
      PositiveCallsStored(1, before);
    }
    assert v > 0;
    NonPositiveArgumentFreezes(v, 0, after);
  }
}
