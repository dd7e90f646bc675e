/**
 * The command-line front end of linux/sobelgui.cpp: the key handler and
 * display flags of `SobelCameraFilterGui`, the frame counter of
 * `calculateAndDisplayFPS`, the exit conditions of `VideoLoop`, and the
 * exit codes of `process_file` and `main`. Capture, colour conversion,
 * windows, the keyboard and the file system are outside the model: what
 * they return reaches the methods below as parameters.
 */
module SobelGui {
  import opened Arith
  import opened CvMat
  import opened Sobel

  /** Clock readings of `high_resolution_clock`, in nanoseconds. */
  type Nanos = int

  const NANOS_PER_MILLI: int := 1_000_000
  const NANOS_PER_SECOND: int := 1_000_000_000

  /** `std::chrono::duration_cast<std::chrono::milliseconds>(now - start).count()`. */
  function ElapsedMillis(start: Nanos, now: Nanos): int
  {
    TruncDiv(now - start, NANOS_PER_MILLI)
  }

  /** `std::chrono::duration_cast<std::chrono::seconds>(now - start).count()`. */
  function ElapsedSeconds(start: Nanos, now: Nanos): int
  {
    TruncDiv(now - start, NANOS_PER_SECOND)
  }

  /** `isdigit(key)` for the codes `cv::waitKey` returns. */
  predicate IsDigitKey(key: int)
  {
    '0' as int <= key <= '9' as int
  }

  // ---------------------------------------------------------------------
  // Key handling as a function of the display flags
  // ---------------------------------------------------------------------

  /** The two display toggles `show_cam_` and `show_filtered_`. */
  datatype DisplayFlags = DisplayFlags(showCam: bool, showFiltered: bool)

  /** The flags after `HandleKey(key)`: 'c' flips the camera window, 'f' the filtered one. */
  function KeyFlags(f: DisplayFlags, key: int): DisplayFlags
  {
    if key == 'c' as int then f.(showCam := !f.showCam)
    else if key == 'f' as int then f.(showFiltered := !f.showFiltered)
    else f
  }

  /** Pressing the same key twice restores both flags. */
  lemma KeyTwiceRestores(f: DisplayFlags, key: int)
    ensures KeyFlags(KeyFlags(f, key), key) == f
  {
  }

  /** Keys other than 'c' and 'f' leave both flags as they were. */
  lemma OtherKeysKeepFlags(f: DisplayFlags, key: int)
    requires key != 'c' as int && key != 'f' as int
    ensures KeyFlags(f, key) == f
  {
  }

  /** The flags after a series of keys, handled in order. */
  function FlagsAfter(f: DisplayFlags, keys: seq<int>): DisplayFlags
  {
    if |keys| == 0 then f else KeyFlags(FlagsAfter(f, keys[..|keys| - 1]), keys[|keys| - 1])
  }

  /** How often `key` occurs in `keys`. */
  function CountKey(keys: seq<int>, key: int): nat
  {
    if |keys| == 0 then 0
    else CountKey(keys[..|keys| - 1], key) + (if keys[|keys| - 1] == key then 1 else 0)
  }

  /** Each flag is flipped exactly once per press of its key: only the parity of the presses matters. */
  lemma {:induction false} FlagsParity(f: DisplayFlags, keys: seq<int>)
    ensures FlagsAfter(f, keys).showCam == (f.showCam != (CountKey(keys, 'c' as int) % 2 == 1))
    ensures FlagsAfter(f, keys).showFiltered == (f.showFiltered != (CountKey(keys, 'f' as int) % 2 == 1))
  {
    if |keys| > 0 {
      FlagsParity(f, keys[..|keys| - 1]);
    }
  }

  /** The `sobelSetThreads` arguments that a series of keys produces: `key - '0'` for every digit. */
  function DigitCalls(keys: seq<int>): (calls: seq<int>)
    ensures forall i :: 0 <= i < |calls| ==> 0 <= calls[i] <= 9
  {
    if |keys| == 0 then []
    else
      var last := keys[|keys| - 1];
      DigitCalls(keys[..|keys| - 1]) + (if IsDigitKey(last) then [last - '0' as int] else [])
  }

  lemma {:induction false} DigitCallsAppend(keys: seq<int>, more: seq<int>)
    ensures DigitCalls(keys + more) == DigitCalls(keys) + DigitCalls(more)
    decreases |more|
  {
    if |more| == 0 {
      assert keys + more == keys;
    } else {
      var init := more[..|more| - 1];
      assert (keys + more)[..|keys + more| - 1] == keys + init;
      DigitCallsAppend(keys, init);
    }
  }

  /**
   * Pressing '0' sets the thread count to 0 if it was positive, and from
   * then on no digit key changes it again.
   */
  lemma ZeroKeyFreezesThreads(current: int, before: seq<int>, after: seq<int>)
    ensures SetThreadsAll(current, DigitCalls(before + ['0' as int] + after)) ==
      SetThreadsResult(SetThreadsAll(current, DigitCalls(before)), 0)
    ensures SetThreadsAll(current, DigitCalls(before + ['0' as int] + after)) <= 0
  {
    DigitCallsAppend(before + ['0' as int], after);
    DigitCallsAppend(before, ['0' as int]);
    assert DigitCalls(['0' as int]) == [0] by {
      assert ['0' as int][..0] == [];
    }
    var v := SetThreadsAll(current, DigitCalls(before));
    SetThreadsAllAppend(current, DigitCalls(before) + [0], DigitCalls(after));
    SetThreadsAllAppend(current, DigitCalls(before), [0]);
    assert SetThreadsAll(v, [0]) == SetThreadsResult(v, 0) by {
      assert [0][1..] == [];
    }
    FrozenOnceNonPositive(SetThreadsResult(v, 0), DigitCalls(after));
  }

  // ---------------------------------------------------------------------
  // The video loop's exit conditions
  // ---------------------------------------------------------------------

  /** What the outside world supplies to one iteration of `VideoLoop`. */
  datatype Iteration = Iteration(
    frameCaptured: bool,  // `cap_ >> frame` gave a non-empty frame
    fpsNow: Nanos,        // the clock reading inside `calculateAndDisplayFPS`
    key: int,             // `cv::waitKey(1)`
    checkNow: Nanos)      // the clock reading of the run-time check

  /** Why `VideoLoop` returned. */
  datatype LoopExit = EmptyFrame | QuitKey | RunTimeReached | NoExitYet

  /** The exit an iteration causes, if any, in the order the loop tests them. */
  function ExitOf(it: Iteration, runTime: int, loopStart: Nanos): LoopExit
  {
    if !it.frameCaptured then EmptyFrame
    else if it.key == 'q' as int then QuitKey
    else if runTime > 0 && ElapsedSeconds(loopStart, it.checkNow) >= runTime then RunTimeReached
    else NoExitYet
  }

  /** The keys `HandleKey` receives during the given iterations: one per captured frame. */
  function HandledKeys(its: seq<Iteration>): seq<int>
  {
    if |its| == 0 then []
    else
      var last := its[|its| - 1];
      HandledKeys(its[..|its| - 1]) + (if last.frameCaptured then [last.key] else [])
  }

  /** One more iteration adds its key to the handled keys exactly when it captured a frame. */
  lemma HandledKeysStep(its: seq<Iteration>, n: nat)
    requires n < |its|
    ensures its[n].frameCaptured ==> HandledKeys(its[..n + 1]) == HandledKeys(its[..n]) + [its[n].key]
    ensures !its[n].frameCaptured ==> HandledKeys(its[..n + 1]) == HandledKeys(its[..n])
  {
    assert its[..n + 1][..n] == its[..n];
    assert HandledKeys(its[..n]) + [] == HandledKeys(its[..n]);
  }

  /** Handling one more key updates the flags by `KeyFlags` and the thread count by that key's digit, if any. */
  lemma KeyStep(f: DisplayFlags, current: int, keys: seq<int>, key: int)
    ensures FlagsAfter(f, keys + [key]) == KeyFlags(FlagsAfter(f, keys), key)
    ensures SetThreadsAll(current, DigitCalls(keys + [key])) ==
      if IsDigitKey(key) then SetThreadsResult(SetThreadsAll(current, DigitCalls(keys)), key - '0' as int)
      else SetThreadsAll(current, DigitCalls(keys))
  {
    assert (keys + [key])[..|keys|] == keys;
    var calls := DigitCalls(keys);
    var d := if IsDigitKey(key) then [key - '0' as int] else [];
    assert DigitCalls(keys + [key]) == calls + d;
    SetThreadsAllAppend(current, calls, d);
    if IsDigitKey(key) {
      assert d[1..] == [];
    }
  }

  /** With no run-time limit, only an empty frame or 'q' ends the loop. */
  lemma NoTimeLimitWithoutRunTime(it: Iteration, loopStart: Nanos)
    ensures ExitOf(it, 0, loopStart) == RunTimeReached ==> false
    ensures ExitOf(it, 0, loopStart) != NoExitYet <==> !it.frameCaptured || it.key == 'q' as int
  {
  }

  // ---------------------------------------------------------------------
  // The fps counter of calculateAndDisplayFPS
  // ---------------------------------------------------------------------

  /** `frame_count_` and `start_time_`. */
  datatype FpsCounter = FpsCounter(frameCount: int, startTime: Nanos)

  /** The counter after `calculateAndDisplayFPS` at clock reading `now`. */
  function FpsStep(c: FpsCounter, now: Nanos): FpsCounter
  {
    if ElapsedMillis(c.startTime, now) >= 1000 then FpsCounter(0, now)
    else FpsCounter(c.frameCount + 1, c.startTime)
  }

  /** The counter after the given loop iterations: one step per captured frame. */
  function FpsAfter(c: FpsCounter, its: seq<Iteration>): FpsCounter
  {
    if |its| == 0 then c
    else
      var before := FpsAfter(c, its[..|its| - 1]);
      var last := its[|its| - 1];
      if last.frameCaptured then FpsStep(before, last.fpsNow) else before
  }

  /** One more iteration steps the counter exactly when it captured a frame. */
  lemma FpsAfterStep(c: FpsCounter, its: seq<Iteration>, n: nat)
    requires n < |its|
    ensures FpsAfter(c, its[..n + 1]) ==
      if its[n].frameCaptured then FpsStep(FpsAfter(c, its[..n]), its[n].fpsNow) else FpsAfter(c, its[..n])
  {
    assert its[..n + 1][..n] == its[..n];
  }

  /**
   * The frame count never goes negative and grows by at most one per loop
   * iteration, so it stays far below `INT_MAX` between two resets.
   */
  lemma {:induction false} FpsCountBounded(c: FpsCounter, its: seq<Iteration>)
    requires c.frameCount >= 0
    ensures 0 <= FpsAfter(c, its).frameCount <= c.frameCount + |its|
  {
    if |its| > 0 {
      FpsCountBounded(c, its[..|its| - 1]);
    }
  }

  // ---------------------------------------------------------------------
  // SobelCameraFilterGui
  // ---------------------------------------------------------------------

  class SobelCameraFilterGui {
    var frameCount: int
    var startTime: Nanos
    var showCam: bool
    var showFiltered: bool
    var threads: int
    /** The process-wide thread count that `sobelSetThreads` updates. */
    const settings: ThreadSetting

    function Flags(): DisplayFlags
      reads this
    {
      DisplayFlags(showCam, showFiltered)
    }

    function Counter(): FpsCounter
      reads this
    {
      FpsCounter(frameCount, startTime)
    }

    /** The defaulted constructor with the member initialisers. */
    constructor (settings: ThreadSetting)
      ensures this.settings == settings
      ensures frameCount == 0 && !showCam && showFiltered && threads == 1
    {
      this.settings := settings;
      frameCount := 0;
      startTime := 0;
      showCam := false;
      showFiltered := true;
      threads := 1;
    }

    /** `InitCamera`: succeeds exactly when the device opened, and then starts the fps clock. */
    method InitCamera(deviceOpened: bool, now: Nanos) returns (ok: bool)
      modifies this
      ensures ok == deviceOpened
      ensures startTime == if deviceOpened then now else old(startTime)
      ensures frameCount == old(frameCount) && Flags() == old(Flags()) && threads == old(threads)
    {
      if !deviceOpened {
        return false;
      }
      startTime := now;
      return true;
    }

    /**
     * `HandleKey`: 'q' asks to quit; 'c' and 'f' flip a display flag; a
     * digit `d` calls `sobelSetThreads(d - '0')`; 's' saves the last result
     * (a file write, which changes no state here) and every other key does
     * nothing.
     */
    method HandleKey(key: int) returns (quit: bool)
      modifies this, settings
      ensures quit <==> key == 'q' as int
      ensures showCam == (if key == 'c' as int then !old(showCam) else old(showCam))
      ensures showFiltered == (if key == 'f' as int then !old(showFiltered) else old(showFiltered))
      ensures Flags() == KeyFlags(old(Flags()), key)
      ensures settings.numThreads ==
        if IsDigitKey(key) then SetThreadsResult(old(settings.numThreads), key - '0' as int) else old(settings.numThreads)
      ensures frameCount == old(frameCount) && startTime == old(startTime) && threads == old(threads)
    {
      if key == 's' as int {
        // cv::imwrite("sobel.png", sobel_result_) and a message: no state changes.
      } else if key == 'c' as int {
        showCam := !showCam;
      } else if key == 'f' as int {
        showFiltered := !showFiltered;
      } else if key == 'q' as int {
        return true;
      } else if IsDigitKey(key) {
        settings.SetThreads(key - '0' as int);
      }
      return false;
    }

    /**
     * `calculateAndDisplayFPS(frame_count_, start_time_)`: counts the frame
     * and, once at least 1000 ms have passed, starts a new measurement.
     */
    method CalculateAndDisplayFps(now: Nanos)
      modifies this
      ensures ElapsedMillis(old(startTime), now) >= 1000 ==> frameCount == 0 && startTime == now
      ensures ElapsedMillis(old(startTime), now) < 1000 ==> frameCount == old(frameCount) + 1 && startTime == old(startTime)
      ensures Counter() == FpsStep(old(Counter()), now)
      ensures Flags() == old(Flags()) && threads == old(threads)
    {
      frameCount := frameCount + 1;
      var elapsed := ElapsedMillis(startTime, now);
      if elapsed >= 1000 {
        frameCount := 0;
        startTime := now;
      }
    }

    /**
     * One pass through the body of `VideoLoop`: an empty frame ends the
     * loop at once; otherwise the frame is counted, the key handled, and
     * the run time checked.
     */
    method LoopIteration(runTime: int, loopStart: Nanos, it: Iteration) returns (exit: LoopExit)
      modifies this, settings
      ensures exit == ExitOf(it, runTime, loopStart)
      ensures Flags() == if it.frameCaptured then KeyFlags(old(Flags()), it.key) else old(Flags())
      ensures settings.numThreads ==
        if it.frameCaptured && IsDigitKey(it.key) then SetThreadsResult(old(settings.numThreads), it.key - '0' as int)
        else old(settings.numThreads)
      ensures it.frameCaptured && ElapsedMillis(old(startTime), it.fpsNow) >= 1000 ==>
        frameCount == 0 && startTime == it.fpsNow
      ensures it.frameCaptured && ElapsedMillis(old(startTime), it.fpsNow) < 1000 ==>
        frameCount == old(frameCount) + 1 && startTime == old(startTime)
      ensures !it.frameCaptured ==> frameCount == old(frameCount) && startTime == old(startTime)
      ensures Counter() == if it.frameCaptured then FpsStep(old(Counter()), it.fpsNow) else old(Counter())
      ensures threads == old(threads)
    {
      if !it.frameCaptured {
        return EmptyFrame;
      }
      CalculateAndDisplayFps(it.fpsNow);
      var quit := HandleKey(it.key);
      if quit {
        return QuitKey;
      }
      if runTime > 0 {
        var elapsed := ElapsedSeconds(loopStart, it.checkNow);
        if elapsed >= runTime {
          return RunTimeReached;
        }
      }
      return NoExitYet;
    }

    /**
     * `VideoLoop(run_time)` over the iterations the outside world supplies.
     * It stops at the first iteration with an empty frame, a 'q' key, or,
     * when `runTime > 0`, at least `runTime` whole seconds since
     * `loopStart`; `NoExitYet` means the supplied iterations ran out first.
     * Every captured frame's key goes through `HandleKey`.
     */
    method VideoLoop(runTime: int, loopStart: Nanos, its: seq<Iteration>) returns (ran: nat, exit: LoopExit)
      modifies this, settings
      ensures ran <= |its|
      ensures forall i :: 0 <= i < ran - 1 ==> ExitOf(its[i], runTime, loopStart) == NoExitYet
      ensures exit != NoExitYet ==> ran > 0 && ExitOf(its[ran - 1], runTime, loopStart) == exit
      ensures exit == NoExitYet ==> ran == |its| && (ran > 0 ==> ExitOf(its[ran - 1], runTime, loopStart) == NoExitYet)
      ensures Flags() == FlagsAfter(old(Flags()), HandledKeys(its[..ran]))
      ensures settings.numThreads == SetThreadsAll(old(settings.numThreads), DigitCalls(HandledKeys(its[..ran])))
      ensures Counter() == FpsAfter(old(Counter()), its[..ran])
      ensures threads == old(threads)
    {
      ran, exit := 0, NoExitYet;
      while ran < |its|
        invariant ran <= |its| && exit == NoExitYet
        invariant forall i :: 0 <= i < ran ==> ExitOf(its[i], runTime, loopStart) == NoExitYet
        invariant Flags() == FlagsAfter(old(Flags()), HandledKeys(its[..ran]))
        invariant settings.numThreads == SetThreadsAll(old(settings.numThreads), DigitCalls(HandledKeys(its[..ran])))
        invariant Counter() == FpsAfter(old(Counter()), its[..ran])
        invariant threads == old(threads)
      {
        ghost var keysBefore := HandledKeys(its[..ran]);
        HandledKeysStep(its, ran);
        FpsAfterStep(old(Counter()), its, ran);
        KeyStep(old(Flags()), old(settings.numThreads), keysBefore, its[ran].key);
        exit := LoopIteration(runTime, loopStart, its[ran]);
        ran := ran + 1;
        if exit != NoExitYet {
          return;
        }
      }
    }
  }

  // ---------------------------------------------------------------------
  // process_file and main
  // ---------------------------------------------------------------------

  /**
   * `process_file(input_file, output_file)`. `gray` is what `cv::imread`
   * returned (empty when the file could not be read) and `writeSucceeds`
   * what `cv::imwrite` would return. The exit code is 1 exactly when the
   * image is empty or an output file was requested and could not be
   * written; otherwise the filtered image has the input's size.
   */
  method ProcessFile(gray: Mat, outputFile: string, writeSucceeds: bool) returns (code: int, sobelResult: Mat)
    requires IsByteGrid(gray.Pixels())
    ensures code == 1 <==> gray.IsEmpty() || (outputFile != "" && !writeSucceeds)
    ensures code == 0 || code == 1
    ensures !gray.IsEmpty() ==>
      sobelResult.Rows() == gray.Rows() && sobelResult.ColCount() == gray.ColCount() &&
      forall y, x :: Interior(gray.Pixels(), y, x) ==> sobelResult.data[y, x] == SobelAt(gray.Pixels(), y, x)
  {
    sobelResult := new Mat.Empty();
    if gray.IsEmpty() {
      return 1, sobelResult;
    }
    SobelFilter(gray, sobelResult);
    if outputFile != "" {
      if !writeSucceeds {
        return 1, sobelResult;
      }
    } else {
      // cv::imshow and cv::waitKey(0): display only.
    }
    return 0, sobelResult;
  }

  /** The options `cv::CommandLineParser` extracted from the arguments. */
  datatype CommandLine = CommandLine(
    help: bool,            // `parser.has("help")`
    valid: bool,           // `parser.check()`
    threads: int,          // `-t`, default 1
    runTime: int,          // `-T`, default 0
    camera: bool,          // `parser.has("camera")`
    input: bool,           // `parser.has("input")`
    outputFile: string)    // `-o`, empty when absent

  /**
   * `main`: help wins over everything and returns 0; invalid arguments
   * return 1; otherwise the thread count is passed to `sobelSetThreads`
   * and the camera, if asked for, takes precedence over an input file; with
   * neither, the exit code is 1. A camera run returns 0 (falling off the
   * end of `main`) unless the camera could not be opened.
   */
  method RunMain(cl: CommandLine, settings: ThreadSetting, gray: Mat, writeSucceeds: bool,
                 cameraOpens: bool, cameraStart: Nanos, loopStart: Nanos, its: seq<Iteration>) returns (code: int)
    requires IsByteGrid(gray.Pixels())
    modifies settings
    ensures cl.help ==> code == 0 && settings.numThreads == old(settings.numThreads)
    ensures !cl.help && !cl.valid ==> code == 1 && settings.numThreads == old(settings.numThreads)
    ensures !cl.help && cl.valid && cl.camera ==> code == (if cameraOpens then 0 else 1)
    ensures !cl.help && cl.valid && cl.camera && !cameraOpens ==>
      settings.numThreads == SetThreadsResult(old(settings.numThreads), cl.threads)
    ensures !cl.help && cl.valid && !cl.camera && cl.input ==>
      (code == 1 <==> gray.IsEmpty() || (cl.outputFile != "" && !writeSucceeds)) &&
      (code == 0 || code == 1) &&
      settings.numThreads == SetThreadsResult(old(settings.numThreads), cl.threads)
    ensures !cl.help && cl.valid && !cl.camera && !cl.input ==>
      code == 1 && settings.numThreads == SetThreadsResult(old(settings.numThreads), cl.threads)
  {
    if cl.help {
      return 0;
    }
    if !cl.valid {
      return 1;
    }
    settings.SetThreads(cl.threads);
    if cl.camera {
      var app := new SobelCameraFilterGui(settings);
      var ok := app.InitCamera(cameraOpens, cameraStart);
      if !ok {
        return 1;
      }
      var ran, exit := app.VideoLoop(cl.runTime, loopStart, its);
      return 0;
    } else if cl.input {
      var sobelResult;
      code, sobelResult := ProcessFile(gray, cl.outputFile, writeSucceeds);
      return code;
    } else {
      return 1;
    }
  }
}
