# sobel-demo in Dafny

A model of the Sobel edge-detection demo: the integer Sobel kernel shared by
the Linux and Android front ends (`sobelFilter`, `sobelSetThreads`), the
key-driven state and exit codes of the Linux camera/file tool, and the
frame-counting state of the Android camera activity.

Modules:

- `Arith`: truncating division and 32-bit wrap-around of C++ and Java integers.
- `CvMat`: a `cv::Mat` header (`Mat`) over a two-dimensional pixel buffer,
  with `create` that keeps a buffer of the right size and allocates a new
  one otherwise, and the value view `Pixels()` as a grid of rows.
- `Sobel`: the process-wide thread count (`ThreadSetting`), the 3x3
  correlation with `gx`/`gy`, the saturated magnitude
  `min(255, isqrt(Gx² + Gy²))` (`SobelAt`), the filtered image as a value
  (`Filtered`), and `SobelFilter`, the four nested loops that fill the
  output matrix in place, proved against `SobelAt` and `Filtered`.
- `SobelRows`: why the OpenMP row loop gives one result for every thread
  count. Any list of row ranges covering the interior rows, applied in any
  order, produces `Filtered`, and so does a static schedule of any
  positive number of threads. `FilterRange` runs one chunk of the row loop
  on the pixel buffer, and `FilterScheduled` runs all chunks of that
  schedule in turn, which ties these lemmas to the array code.
- `SobelGui`: `SobelCameraFilterGui` (`HandleKey`, `InitCamera`,
  `VideoLoop`), `calculateAndDisplayFPS`, `process_file` and `main`. Camera
  frames, key codes, clock readings, the image read from disk and whether
  a write succeeds are parameters.
- `CameraActivity`: the selected camera, the frame counter with Java `int`
  wrap-around, the format gate and orientation of `processFrame`, the
  integer fps of `fpsRunnable`, and the core-count slider.

`sobelSetThreads` tests the stored count, not its argument. A call with 0
or a negative argument therefore freezes the count for the rest of the
process. The model keeps this behaviour and proves its consequences:
`FrozenOnceNonPositive`, `ZeroKeyFreezesThreads` and `SliderZeroIsFinal`.

`std::sqrt` followed by the conversion to `int` is modelled as the integer
floor square root `ISqrt`. `GradientBounds` shows that the argument is at
most 2·1020² on 8-bit input. That is far below 2^52, where every integer
is an exact double.

## Model

| member | source | states |
|---|---|---|
| Sobel.ThreadSetting.constructor | common/sobel.cpp:7 | the thread count starts at 1 |
| Sobel.ThreadSetting.SetThreads | common/sobel.cpp:20-26 | stores `n` when the stored count is positive, otherwise leaves it unchanged |
| Sobel.FrozenOnceNonPositive | common/sobel.cpp:20-26 | once the count is 0 or negative, any series of later calls leaves it unchanged |
| Sobel.PositiveCallsStored | common/sobel.cpp:16-26 | from a positive count, a series of positive arguments is stored, the last one remaining |
| Sobel.NonPositiveArgumentFreezes | common/sobel.cpp:20-26 | a non-positive argument given while the count is positive is stored and is the final value whatever follows |
| Sobel.SetThreadsAllAppend | common/sobel.cpp:20-26 | two series of calls compose: the second starts from the count the first left |
| Sobel.CorrelateNext | common/sobel.cpp:50-56 | the tap at offset `(ky, kx)` reads `input(y+ky, x+kx)` and the weight at index `(ky+1)*3+(kx+1)`, extending the correlation by one step |
| Sobel.ISqrt | common/sobel.cpp:61 | the result `r` is the floor square root: `r² <= n < (r+1)²` |
| Sobel.Magnitude | common/sobel.cpp:61-62 | the written value lies in 0..255; it is 255 exactly when `sumX²+sumY² >= 255²`, and otherwise the floor root of `sumX²+sumY²` |
| Sobel.SobelAt | common/sobel.cpp:43-62 | every value written at an interior pixel lies in 0..255 |
| Sobel.CorrelateBounds | common/sobel.cpp:50-58 | on 8-bit samples the correlation lies between -255 times the negative weights and 255 times the positive weights |
| Sobel.GradientBounds | common/sobel.cpp:47-61 | on 8-bit input `|Gx|, |Gy| <= 1020` and `Gx²+Gy² <= 2·1020² < 2^31`: no overflow and an exact square root |
| Sobel.KernelsSumToZero | common/sobel.cpp:31-32 | the weights of `gx` and of `gy` each sum to 0 |
| Sobel.ConstantWindowGivesZero | common/sobel.cpp:47-62 | a flat 3x3 neighbourhood gives `Gx = Gy = 0` and output 0 |
| Sobel.FilteredSpec | common/sobel.cpp:42-64 | the filtered image has the input's shape, the Sobel magnitude on each interior pixel and the prior contents on the border |
| Sobel.FilteredFromCells | common/sobel.cpp:42-64 | conversely, any grid with those cells is the filtered image |
| Sobel.ConstantImageGivesZero | common/sobel.cpp:42-64 | a constant input yields 0 in every interior cell |
| Sobel.SmallImageUnchanged | common/sobel.cpp:43-45 | with fewer than 3 rows or columns no cell is written |
| Sobel.WindowSums | common/sobel.cpp:47-58 | the `ky`/`kx` loops compute `sumX = Gx` and `sumY = Gy`, the unflipped correlations with `gx` and `gy` |
| Sobel.FilterIteration | common/sobel.cpp:45-63 | iteration `y` writes the Sobel magnitude into the interior cells of row `y` and no other cell |
| Sobel.FilterRows | common/sobel.cpp:43-64 | the row loop fills every interior cell with the Sobel magnitude and leaves every border cell as it was |
| Sobel.SobelFilter | common/sobel.cpp:28-65 | output sized like the input; input unchanged; interior cells hold `SobelAt`; when the output buffer is reused, the border is unchanged and the whole output equals `Filtered(input, prior output)` |
| CvMat.Mat.Create | common/sobel.cpp:35 | after `create` the matrix has the requested size; the buffer is kept when it already had that size, otherwise a new one is allocated |
| SobelRows.FilterRowIdempotent | common/sobel.cpp:45-63 | running an iteration again rewrites the same row |
| SobelRows.ApplyRangesRows | common/sobel.cpp:42-63 | after any list of row ranges, row `y` is computed if a range covers it and unchanged otherwise |
| SobelRows.PartitionGivesFiltered | common/sobel.cpp:42-64 | any list of row ranges covering rows `1..rows-2` produces the filtered image |
| SobelRows.AnyOrderSameResult | common/sobel.cpp:42-64 | the order in which the ranges are processed does not change the result |
| SobelRows.ScheduleIsPartition | common/sobel.cpp:42 | the static schedule over `t` threads has `t` contiguous chunks from the first to the last iteration |
| SobelRows.ScheduleCovers | common/sobel.cpp:42-43 | every chunk lies within the loop, and every iteration lies in some chunk |
| SobelRows.ApplyRangeFromCells | common/sobel.cpp:42-63 | a grid whose rows in a range have their interior computed and whose other cells are unchanged is `ApplyRange` of that range |
| SobelRows.FilterRange | common/sobel.cpp:42-63 | one worker running iterations `[lo, hi)` of the row loop on the buffer leaves exactly `ApplyRange` of its former contents |
| SobelRows.ApplyRangesSnoc | common/sobel.cpp:42-63 | running one more range after a list of ranges applies that range to the list's result |
| SobelRows.FilterScheduled | common/sobel.cpp:42-64 | running every chunk of the static schedule for any `t >= 1` on the buffer leaves the filtered image of its former contents |
| SobelRows.ThreadCountIndependent | common/sobel.cpp:42-64 | for any two positive thread counts the output is the same and equals the filtered image |
| SobelGui.KeyTwiceRestores | linux/sobelgui.cpp:218-229 | pressing the same key twice restores both display flags |
| SobelGui.OtherKeysKeepFlags | linux/sobelgui.cpp:208-217 | keys other than 'c' and 'f' leave both display flags unchanged |
| SobelGui.FlagsParity | linux/sobelgui.cpp:204-243 | after any series of keys each flag equals its start value flipped once per press of its key |
| SobelGui.DigitCalls | linux/sobelgui.cpp:233-239 | every thread count requested from the keyboard lies in 0..9 |
| SobelGui.DigitCallsAppend | linux/sobelgui.cpp:233-239 | the thread counts requested by two series of keys are those of each series, in order |
| SobelGui.ZeroKeyFreezesThreads | linux/sobelgui.cpp:233-239 | key '0' stores 0 if the count was positive, and after it the count stays at or below 0 whatever digits follow |
| SobelGui.NoTimeLimitWithoutRunTime | linux/sobelgui.cpp:158-167 | with run time 0 the loop never stops on time; only an empty frame or 'q' end it |
| SobelGui.FpsAfterStep | linux/sobelgui.cpp:123-149 | an iteration steps the fps counter exactly when it captured a frame |
| SobelGui.FpsCountBounded | linux/sobelgui.cpp:101-114 | the frame count stays non-negative and grows by at most one per loop iteration |
| SobelGui.SobelCameraFilterGui.constructor | linux/sobelgui.cpp:47-55 | frame count 0, camera window hidden, filtered window shown, `threads_` 1 |
| SobelGui.SobelCameraFilterGui.InitCamera | linux/sobelgui.cpp:63-77 | succeeds exactly when the device opened, and only then starts the fps clock |
| SobelGui.SobelCameraFilterGui.HandleKey | linux/sobelgui.cpp:204-243 | returns true exactly for 'q'; 'c' flips the camera flag and 'f' the filtered flag; a digit `d` calls `sobelSetThreads(d - '0')`; every other key changes nothing |
| SobelGui.SobelCameraFilterGui.CalculateAndDisplayFps | linux/sobelgui.cpp:101-114 | the frame is counted; after at least 1000 ms the count restarts at 0 and the start time becomes now, otherwise the start time is kept |
| SobelGui.HandledKeysStep | linux/sobelgui.cpp:123-152 | an iteration passes its key to `HandleKey` exactly when it captured a frame |
| SobelGui.KeyStep | linux/sobelgui.cpp:204-243 | one more handled key updates the flags by that key and the thread count by its digit, if it is one |
| SobelGui.SobelCameraFilterGui.LoopIteration | linux/sobelgui.cpp:121-167 | one pass through the loop body ends the loop exactly as `ExitOf` says, in the order empty frame, 'q', run time; only a captured frame steps the fps counter (reset after at least 1000 ms, otherwise counted) and has its key handled; `threads_` is unchanged |
| SobelGui.SobelCameraFilterGui.VideoLoop | linux/sobelgui.cpp:116-169 | stops at the first empty frame, 'q', or, when run time > 0, at least run time whole seconds; flags, thread count and fps counter are those after the frames and keys handled so far; `threads_` is unchanged |
| SobelGui.ProcessFile | linux/sobelgui.cpp:171-202 | returns 1 exactly when the image is empty or the requested write fails, 0 otherwise; the result has the input's size and the Sobel magnitudes |
| SobelGui.RunMain | linux/sobelgui.cpp:245-298 | help returns 0 first; invalid arguments return 1; otherwise the thread count is set, the camera wins over an input file, a camera run returns 1 only if the camera fails to open, and with neither source the result is 1 |
| CameraActivity.ToggleIsInvolution | android/app/src/main/java/es/rausamon/sobeldemo/CameraActivity.java:163-172 | toggling always changes the camera, and two toggles restore it |
| CameraActivity.ToggleParity | android/app/src/main/java/es/rausamon/sobeldemo/CameraActivity.java:163-172 | after `n` toggles the starting camera is selected exactly when `n` is even |
| CameraActivity.OrientationChoice | android/app/src/main/java/es/rausamon/sobeldemo/CameraActivity.java:196-201 | only the front camera is mirrored; both rotations are quarter turns, half a turn apart |
| CameraActivity.FpsIsFrameRate | android/app/src/main/java/es/rausamon/sobeldemo/CameraActivity.java:257-258 | without overflow, the reported fps is the floor of `frameCount*1000/elapsed` and at most `frameCount` |
| CameraActivity.CameraActivityState.constructor | android/app/src/main/java/es/rausamon/sobeldemo/CameraActivity.java:53-58 | back camera selected, frame count 0, start time taken at construction |
| CameraActivity.CameraActivityState.ToggleCamera | android/app/src/main/java/es/rausamon/sobeldemo/CameraActivity.java:163-174 | switches between back and front camera, nothing else changes |
| CameraActivity.CameraActivityState.ProcessFrame | android/app/src/main/java/es/rausamon/sobeldemo/CameraActivity.java:176-218 | every frame is counted once (with `int` wrap-around); exactly the YUV_420_888 frames are filtered, delivered with the camera's orientation, and closed |
| CameraActivity.CameraActivityState.FpsTick | android/app/src/main/java/es/rausamon/sobeldemo/CameraActivity.java:252-265 | when more than 1000 ms have passed it reports the integer fps and restarts the count and the clock; otherwise it reports nothing and changes nothing |
| CameraActivity.CameraActivityState.OnProgressChanged | android/app/src/main/java/es/rausamon/sobeldemo/CameraActivity.java:82-90 | the slider value, 0 included, goes unchanged to `sobelSetThreads` |
| CameraActivity.SliderZeroIsFinal | android/app/src/main/java/es/rausamon/sobeldemo/CameraActivity.java:85-90 | from the initial count, the first time the slider reaches 0 the count becomes 0 and no later slider position changes it |

## Left out

- OpenMP: the row loop runs sequentially. Independence from the thread count is proved over row ranges in `SobelRows`, not over concurrent execution. The default OpenMP schedule is left to the implementation; `Schedule` is one static schedule.
- Once the thread count is 0 or negative (reachable: see `ZeroKeyFreezesThreads` and `SliderZeroIsFinal`), every later `sobelFilter` runs `num_threads` with a non-positive value, for which OpenMP does not specify the team size. Whatever team the runtime forms, it divides the iterations into ranges that cover the loop, and `PartitionGivesFiltered` shows that any covering split yields `Filtered`; the model does not say which split the runtime chooses.
- `std::sqrt` in floating point is replaced by `ISqrt`, which agrees with it on the reachable range (see `GradientBounds`).
- Sobel.SobelFilter: when `create` allocates a new buffer, its contents are unspecified, so the contract says nothing about the border cells. Dafny initialises the buffer, but no property depends on that.
- Sobel.SobelFilter: the input and output must be different matrices. Filtering a matrix into itself is not modelled. The element type and channel count of `cv::Mat` are not modelled either; input samples are required to be 8-bit.
- Sobel.SobelFilter: `create` failing to allocate, the `output.empty()` branch after a non-empty request, is not modelled. Emptiness here comes only from a zero-sized input.
- The four nested loops of `sobelFilter` are split over the methods `FilterRows` (or `FilterRange` for one chunk), `WindowSums` and `FilterIteration`, one loop or loop pair each.
- `cv::cvtColor`, `cv::imread`, `cv::imwrite`, `cv::imshow`, `cv::waitKey`, `cv::destroyWindow`, `cv::VideoCapture` and the capture properties: their outcomes are parameters (`gray`, `writeSucceeds`, `deviceOpened`, `frameCaptured`, `key`).
- SobelGui.SobelCameraFilterGui.VideoLoop: the frame is not filtered into `sobel_result_` and no window is shown. The `'s'` key's file write changes no modelled state. The contract states the exit conditions, the flags, the thread count and the fps counter.
- SobelGui.SobelCameraFilterGui.CalculateAndDisplayFps: the `double` fps printout is left out, and so is `measureExecutionTime`. `frame_count_` is an unbounded integer, so its 32-bit overflow is not modelled (it is reset every second).
- SobelGui.IsDigitKey: `isdigit` for key codes outside `unsigned char` range, which is undefined behaviour in C, is modelled as "not a digit".
- SobelGui.RunMain: the parsing done by `cv::CommandLineParser` is left out. Its results are the fields of `CommandLine`.
- SobelGui.RunMain: the return code of a camera run does not depend on how the loop ended, so the loop's effects are not stated there.
- CameraActivity: CameraX binding, permissions, `Handler` scheduling, the 60 s close timer, `Toast`, `runOnUiThread` and the empty `CvCameraViewListener2` callbacks. Drop-latest backpressure is done by CameraX, and the repository has no code for it to model.
- CameraActivity.CameraActivityState.ProcessFrame: `Matrix` and `Bitmap` are not modelled. The transform is recorded only as a rotation and a mirror flag. The YUV-to-gray conversion is the parameter `gray`.
- CameraActivity.CameraActivityState.ToggleCamera: rebinding the camera use cases is left out.
- CameraActivity.FpsIsFrameRate: stated only for counts up to `INT32_MAX / 1000`. Above that, `frameCount * 1000` wraps in Java and the reported value is meaningless. `FpsValue` models that wrap-around as written.
- GalleryActivity.java, native-lib.cpp, JNIHelper.java and sobel.h are not part of this model. Only the behaviour of `sobelFilterOnNewMat` is used: a fresh matrix filled by `sobelFilter`.
