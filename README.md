# Video inference transcoder — Dafny model

This project models `VideoProcessor`, the offline path of the YOLOv8 TFLite Android
app. It turns a video the user picked into an annotated MP4 called `<name>_inf.mp4`.

The transcoder works in stages:

1. It reads the video's width, height, duration and frame rate (default 30).
2. It configures an H.264 (`video/avc`) encoder: 2 Mb/s, one key frame per second, frames drawn onto its input surface.
3. It samples the input at `1000 / frameRate` ms steps. For each step that yields a frame, it runs the detector, draws the boxes and feeds the frame to the encoder. It then reports progress as `processedFrames * 100 / totalFrames`, clamped to 0..100.
4. It signals end of input and drains the encoder into an MPEG-4 muxer.
5. It stops and releases encoder, muxer and retriever.
6. It calls `onComplete` with the output path. Any exception lands in one catch, which calls `onComplete("")`.

The model is in six modules:

- `Wrappers`: `Option` and Kotlin's `?:` (`GetOr`).
- `KotlinInt`: what the code depends on from Kotlin's integers. This covers 32-bit wrap-around of `Int` (`Wrap32`), truncating division (`Div`), `coerceAtLeast` and `coerceIn`, plus a few arithmetic lemmas.
- `FileNames`: `getOutputFileName`, following `java.io.File.getName` and Kotlin's `nameWithoutExtension`.
- `Sampling`:
  - the frame rate, interval and `totalFrames` arithmetic;
  - the progress formula;
  - the sampling loop as a function `SampleAfter` of the number of iterations, with its properties.
- `EncoderDrain`: the drain loop as a function `DrainFrom` over the script of values `dequeueOutputBuffer` returns, with its properties.
- `VideoProcessing`:
  - `Run`, a whole `processVideo` run written as a function of what the platform supplies (`Platform`). `Run(env)` is `RunTo(env, OutputPath(env))`, and the lemmas about runs hold for `RunTo` with any output path;
  - the class `VideoProcessor`, whose methods run the two loops imperatively and are proved to produce `Run`;
  - lemmas about `Run`: the completion contract, release on success, muxer ordering, progress, and the fed frames.

Platform behaviour the code cannot see is an input of the model:

- the metadata values;
- which timestamps yield a frame;
- the detector's boxes per timestamp;
- whether the per-frame work throws;
- the encoder's output events;
- which platform call, if any, throws outside the loops;
- whether the caller's `onComplete` throws.

The app's source is in Kotlin. Behaviours of the code that the model keeps:

- The encoder is drained once, after the sampling loop, not after every frame.
- Encoder, muxer and retriever are released only on the success path. A run that throws leaves them unreleased (`Run(env).released` is false).
- A detector or drawing failure is not absorbed: it aborts the run, which completes with "".
- If `onComplete(path)` itself throws, the catch calls `onComplete("")` a second time.
- If the encoder never reports its output format, the drain never starts the muxer. `muxer.stop()` (line 106) then throws `IllegalStateException`, and the run completes with "".
- A frame rate of 0, or above 1000 or below -1000 (interval 0), throws `ArithmeticException` at `VideoProcessor.kt:52`/`:54`. The run then completes with "".
- A frame rate in -1000..-1 with a positive duration gives a negative interval (`Stalls`). The cursor then visits 0, -i, -2i, ... and never reaches `durationMs`. Such a run completes with "" as soon as a visited step throws. Otherwise it does not end before its 64-bit cursor wraps around. The model does not follow such a run (see "Left out").

## Model

| member | source | states |
|---|---|---|
| KotlinInt.Wrap32 | android_app/android_app/app/src/main/java/com/surendramaran/yolov8tflite/VideoProcessor.kt:70-71 | the result is a 32-bit `Int` congruent to the exact value modulo 2^32, and equal to it when it fits |
| KotlinInt.Div | android_app/android_app/app/src/main/java/com/surendramaran/yolov8tflite/VideoProcessor.kt:52-54 | Kotlin/JVM `/`: the quotient's magnitude is the floor of the magnitudes' quotient and its sign is the product of the operands' signs (truncation toward zero) |
| KotlinInt.CoerceAtLeast | android_app/android_app/app/src/main/java/com/surendramaran/yolov8tflite/VideoProcessor.kt:54 | the result is at least the bound, and equals the input when the input already is |
| KotlinInt.CoerceIn | android_app/android_app/app/src/main/java/com/surendramaran/yolov8tflite/VideoProcessor.kt:72 | the result lies in the range, and equals the input when the input does |
| FileNames.LastIndexOf | android_app/android_app/app/src/main/java/com/surendramaran/yolov8tflite/VideoProcessor.kt:177 | the result is the last position holding the character, or -1 when it does not occur |
| FileNames.TrimTrailingSlashes | android_app/android_app/app/src/main/java/com/surendramaran/yolov8tflite/VideoProcessor.kt:177 | `File` normalisation: the result is a prefix of the path, does not end in '/', and only slashes were removed |
| FileNames.FileName | android_app/android_app/app/src/main/java/com/surendramaran/yolov8tflite/VideoProcessor.kt:177 | `File.name`: contains no '/' and is the last segment of the normalised path |
| FileNames.NameWithoutExtension | android_app/android_app/app/src/main/java/com/surendramaran/yolov8tflite/VideoProcessor.kt:177 | `nameWithoutExtension`: the name up to its last '.', or the whole name when it has none |
| FileNames.OutputFileName | android_app/android_app/app/src/main/java/com/surendramaran/yolov8tflite/VideoProcessor.kt:176-179 | the output name ends in `_inf.mp4` and contains no '/' |
| FileNames.MissingPathName | android_app/android_app/app/src/main/java/com/surendramaran/yolov8tflite/VideoProcessor.kt:177-178 | a URI without a path gives `output_inf.mp4` |
| FileNames.LastIndexOfSplit | android_app/android_app/app/src/main/java/com/surendramaran/yolov8tflite/VideoProcessor.kt:177 | the last occurrence of a separator is the one that no later one follows |
| FileNames.OutputFileNameDropsExtension | android_app/android_app/app/src/main/java/com/surendramaran/yolov8tflite/VideoProcessor.kt:176-179 | for `dir/stem.ext`, the output name is `stem_inf.mp4`: the directory and the last extension are dropped |
| FileNames.OutputFileNameWithoutExtension | android_app/android_app/app/src/main/java/com/surendramaran/yolov8tflite/VideoProcessor.kt:176-179 | for `dir/name` with no '.', the output name is `name_inf.mp4` |
| Sampling.FrameRate | android_app/android_app/app/src/main/java/com/surendramaran/yolov8tflite/VideoProcessor.kt:28-29 | a missing capture frame rate means 30; a present one is used as it is |
| Sampling.FrameInterval | android_app/android_app/app/src/main/java/com/surendramaran/yolov8tflite/VideoProcessor.kt:52 | for a rate in 1..1000 the interval is the largest whole number of ms with `interval * rate <= 1000`; above 1000 or below -1000 it is 0; for -1000..-1 it is negative |
| Sampling.TotalFrames | android_app/android_app/app/src/main/java/com/surendramaran/yolov8tflite/VideoProcessor.kt:54 | `totalFrames` is always in 1..`Int.MAX_VALUE`, and is `max(1, durationMs / interval)` whenever that quotient fits an `Int` |
| Sampling.Iterations | android_app/android_app/app/src/main/java/com/surendramaran/yolov8tflite/VideoProcessor.kt:51-56 | the number of loop iterations: 0 for a non-positive duration, otherwise the least `n` with `n * interval >= durationMs` |
| Sampling.CursorBelowIff | android_app/android_app/app/src/main/java/com/surendramaran/yolov8tflite/VideoProcessor.kt:56 | the loop condition holds at cursor `k * interval` exactly when `k < Iterations` |
| Sampling.Progress | android_app/android_app/app/src/main/java/com/surendramaran/yolov8tflite/VideoProcessor.kt:71-72 | every reported progress value is in 0..100, and is `min(100, processed * 100 / total)` while `processed * 100` fits an `Int` |
| Sampling.ProgressMonotone | android_app/android_app/app/src/main/java/com/surendramaran/yolov8tflite/VideoProcessor.kt:71-72 | progress does not decrease as more frames are processed, up to `MaxExactFrames` |
| Sampling.ProgressDropsAfterOverflow | android_app/android_app/app/src/main/java/com/surendramaran/yolov8tflite/VideoProcessor.kt:70-72 | past 21,474,836 frames `processedFrames * 100` wraps: progress falls from 99 to 0 |
| Sampling.SampleStepEffect | android_app/android_app/app/src/main/java/com/surendramaran/yolov8tflite/VideoProcessor.kt:56-74 | one iteration of `SampleStep`: after a throw nothing changes; the step fails exactly when its timestamp yields a frame whose processing throws; it feeds exactly one frame, carrying the detector's boxes, and reports exactly one percentage when the frame goes through; otherwise it feeds and reports nothing |
| Sampling.SampleAfter | android_app/android_app/app/src/main/java/com/surendramaran/yolov8tflite/VideoProcessor.kt:56-75 | after `k` iterations there is one progress value per fed frame, and at most `k` frames have been fed |
| Sampling.SampleFrozenAfterFailure | android_app/android_app/app/src/main/java/com/surendramaran/yolov8tflite/VideoProcessor.kt:56-75 | once a step has thrown, later iterations change nothing (the loop has been left) |
| Sampling.SampleFailsIff | android_app/android_app/app/src/main/java/com/surendramaran/yolov8tflite/VideoProcessor.kt:56-75 | the loop fails exactly when some visited timestamp yields a frame whose processing throws |
| Sampling.SampleCountsHits | android_app/android_app/app/src/main/java/com/surendramaran/yolov8tflite/VideoProcessor.kt:57-62 | without a failure, the number of frames fed is the number of visited timestamps that yield a frame; null frames are skipped |
| Sampling.StepKeepsCounts | android_app/android_app/app/src/main/java/com/surendramaran/yolov8tflite/VideoProcessor.kt:70-72 | one step keeps the counter, progress log and fed frames in agreement |
| Sampling.StepKeepsOrder | android_app/android_app/app/src/main/java/com/surendramaran/yolov8tflite/VideoProcessor.kt:57-74 | one step keeps the fed frames on visited timestamps, in increasing order |
| Sampling.SampleLogs | android_app/android_app/app/src/main/java/com/surendramaran/yolov8tflite/VideoProcessor.kt:56-75 | after any number of iterations: one progress value per fed frame, each equal to `Progress` of its frame count; the counter is the wrapped count; fed frames are at multiples of the interval below the cursor, in increasing order, with the detector's boxes |
| Sampling.SampleFedFrames | android_app/android_app/app/src/main/java/com/surendramaran/yolov8tflite/VideoProcessor.kt:56-75 | after the whole loop, the fed frames are visited timestamps below `durationMs` that yield a frame, strictly increasing, each with the detector's boxes; without a throw they are all such timestamps |
| Sampling.FedBeforeEnd | android_app/android_app/app/src/main/java/com/surendramaran/yolov8tflite/VideoProcessor.kt:56 | a timestamp the loop visited is below `durationMs` |
| Sampling.ProgressNonDecreasing | android_app/android_app/app/src/main/java/com/surendramaran/yolov8tflite/VideoProcessor.kt:70-72 | the reported progress sequence never decreases while at most `MaxExactFrames` frames are fed |
| Sampling.SampleAllDecode | android_app/android_app/app/src/main/java/com/surendramaran/yolov8tflite/VideoProcessor.kt:56-75 | when every visited timestamp yields a frame and nothing throws, every iteration feeds one frame |
| Sampling.ProgressReachesFull | android_app/android_app/app/src/main/java/com/surendramaran/yolov8tflite/VideoProcessor.kt:54-72 | when every visited timestamp yields a frame, the last progress value reported is 100 |
| Sampling.TotalAtMostIterations | android_app/android_app/app/src/main/java/com/surendramaran/yolov8tflite/VideoProcessor.kt:54-56 | `totalFrames` (a floor) never exceeds the number of iterations (a ceiling) |
| Sampling.ProgressFullAt | android_app/android_app/app/src/main/java/com/surendramaran/yolov8tflite/VideoProcessor.kt:71-72 | once the processed count reaches `totalFrames`, progress is 100 |
| EncoderDrain.DrainFrom | android_app/android_app/app/src/main/java/com/surendramaran/yolov8tflite/VideoProcessor.kt:82-102 | the drain consumes events only forward and never past the end of the script |
| EncoderDrain.Drain | android_app/android_app/app/src/main/java/com/surendramaran/yolov8tflite/VideoProcessor.kt:77-102 | the drain consumes no more than the encoder's events; when it throws, it has made no muxer call and has not started the muxer |
| EncoderDrain.StartedNeverThrows | android_app/android_app/app/src/main/java/com/surendramaran/yolov8tflite/VideoProcessor.kt:91-94 | once the muxer is started, the drain cannot throw "Muxer hasn't started" |
| EncoderDrain.DrainFromThrowsIff | android_app/android_app/app/src/main/java/com/surendramaran/yolov8tflite/VideoProcessor.kt:82-102 | from any point before the muxer starts, the drain throws exactly when an output buffer is dequeued before any format change or stop |
| EncoderDrain.DrainThrowsIff | android_app/android_app/app/src/main/java/com/surendramaran/yolov8tflite/VideoProcessor.kt:82-102 | the drain throws exactly when the encoder hands out a buffer before its output format |
| EncoderDrain.DrainFromStartsIff | android_app/android_app/app/src/main/java/com/surendramaran/yolov8tflite/VideoProcessor.kt:82-102 | from any point before the muxer starts, the drain starts it exactly when a format change comes before any event other than "buffers changed" |
| EncoderDrain.DrainStartsIff | android_app/android_app/app/src/main/java/com/surendramaran/yolov8tflite/VideoProcessor.kt:82-106 | the drain starts the muxer, which `muxer.stop()` needs, exactly when the encoder's first event other than "buffers changed" is a format change; a drain that starts the muxer does not throw |
| EncoderDrain.AddTrackKeepsOrdered | android_app/android_app/app/src/main/java/com/surendramaran/yolov8tflite/VideoProcessor.kt:86-90 | adding the track and starting the muxer keeps the muxer call log well ordered |
| EncoderDrain.WriteKeepsOrdered | android_app/android_app/app/src/main/java/com/surendramaran/yolov8tflite/VideoProcessor.kt:95-97 | a write followed by its release keeps the log well ordered |
| EncoderDrain.DrainFromOrdered | android_app/android_app/app/src/main/java/com/surendramaran/yolov8tflite/VideoProcessor.kt:82-102 | the drain keeps the muxer call log well ordered from any state |
| EncoderDrain.DrainOrdered | android_app/android_app/app/src/main/java/com/surendramaran/yolov8tflite/VideoProcessor.kt:82-102 | every `writeSampleData` follows `addTrack` of its track and `start`, and is followed at once by `releaseOutputBuffer` of the same buffer; every release follows its write |
| EncoderDrain.DrainFromStops | android_app/android_app/app/src/main/java/com/surendramaran/yolov8tflite/VideoProcessor.kt:82-102 | from any point, the drain stops at the first `INFO_TRY_AGAIN_LATER` or end-of-stream sample, or on a throw at an output buffer |
| EncoderDrain.DrainStops | android_app/android_app/app/src/main/java/com/surendramaran/yolov8tflite/VideoProcessor.kt:82-102 | the drain ends at the first `INFO_TRY_AGAIN_LATER`, right after writing an end-of-stream sample, on a throw at an output buffer, or when the encoder has nothing more; no earlier event stops it |
| EncoderDrain.WrittenAddTrack | android_app/android_app/app/src/main/java/com/surendramaran/yolov8tflite/VideoProcessor.kt:88-89 | adding a track and starting writes no sample |
| EncoderDrain.WrittenWrite | android_app/android_app/app/src/main/java/com/surendramaran/yolov8tflite/VideoProcessor.kt:96-97 | a write and its release add exactly that buffer to the written samples |
| EncoderDrain.DrainFromWritesSamples | android_app/android_app/app/src/main/java/com/surendramaran/yolov8tflite/VideoProcessor.kt:82-102 | from any point, the drain writes exactly the consumed buffers that have data, in order |
| EncoderDrain.DrainWritesEverySample | android_app/android_app/app/src/main/java/com/surendramaran/yolov8tflite/VideoProcessor.kt:82-102 | unless it throws, the drain writes every dequeued buffer that has data, in dequeue order, and nothing else; buffers without data are skipped |
| VideoProcessing.OutputPath | android_app/android_app/app/src/main/java/com/surendramaran/yolov8tflite/VideoProcessor.kt:31-34 | the output path names a file directly inside the movies directory, with a name ending in `_inf.mp4` |
| VideoProcessing.InDirectory | android_app/android_app/app/src/main/java/com/surendramaran/yolov8tflite/VideoProcessor.kt:31-34 | joining a name that has no '/' and ends in `_inf.mp4` to a directory names such a file directly inside it |
| VideoProcessing.FormatFor | android_app/android_app/app/src/main/java/com/surendramaran/yolov8tflite/VideoProcessor.kt:37-42 | the encoder format is `video/avc` at 2 Mb/s with one key frame per second, at the sampling frame rate; a missing width or height is 0 |
| VideoProcessing.Duration | android_app/android_app/app/src/main/java/com/surendramaran/yolov8tflite/VideoProcessor.kt:27 | a missing duration is 0 ms |
| VideoProcessing.RunTo | android_app/android_app/app/src/main/java/com/surendramaran/yolov8tflite/VideoProcessor.kt:20-117 | the model records a completion exactly for the runs that do not stall; a stalled run is recorded with none (see "Left out"). When the run releases its resources, the first call gets the output path; any other run that does not stall gets exactly one call, with "". There is one progress value per fed frame |
| VideoProcessing.Run | android_app/android_app/app/src/main/java/com/surendramaran/yolov8tflite/VideoProcessor.kt:15-118 | a successful `processVideo` first passes onComplete a path naming an `_inf.mp4` file directly inside the movies directory |
| VideoProcessing.AfterSampling | android_app/android_app/app/src/main/java/com/surendramaran/yolov8tflite/VideoProcessor.kt:77-116 | end of input, drain, teardown and completion keep the format, the progress values and the fed frames. Resources are released only when the sampling loop did not throw, and onComplete is then first called with the output path. Otherwise it is called once, with "" |
| VideoProcessing.CompletionContract | android_app/android_app/app/src/main/java/com/surendramaran/yolov8tflite/VideoProcessor.kt:20-117 | a run that does not stall calls onComplete with "" exactly when some step throws, otherwise with the output path (and a second time with "" if onComplete throws). The failure condition `Fails` is stated independently of the loops; it includes `muxer.stop()` on a muxer the drain never started |
| VideoProcessing.ExactlyOneCompletion | android_app/android_app/app/src/main/java/com/surendramaran/yolov8tflite/VideoProcessor.kt:110-116 | when onComplete does not throw and the output path is non-empty (as `OutputPath` guarantees), onComplete is called exactly once per run, with "" exactly on failure |
| VideoProcessing.ReleasedOnlyOnSuccess | android_app/android_app/app/src/main/java/com/surendramaran/yolov8tflite/VideoProcessor.kt:104-116 | encoder, muxer and retriever are released exactly on runs that neither stall nor fail |
| VideoProcessing.RunMuxerOrdered | android_app/android_app/app/src/main/java/com/surendramaran/yolov8tflite/VideoProcessor.kt:82-102 | in every run, samples are written only after `addTrack` and `start`, to the added track, and each written buffer is released right after |
| VideoProcessing.RunProgress | android_app/android_app/app/src/main/java/com/surendramaran/yolov8tflite/VideoProcessor.kt:70-72 | in every run, one progress value per fed frame, each in 0..100, and non-decreasing up to `MaxExactFrames` frames |
| VideoProcessing.RunFedFrames | android_app/android_app/app/src/main/java/com/surendramaran/yolov8tflite/VideoProcessor.kt:56-75 | the frames fed are visited timestamps below `durationMs` that yield a frame, strictly increasing, each with the detector's boxes; without a throw they are all such timestamps |
| VideoProcessing.MissingFrameRateInterval | android_app/android_app/app/src/main/java/com/surendramaran/yolov8tflite/VideoProcessor.kt:28-29 | a missing frame rate means 30 fps, sampled every 33 ms |
| VideoProcessing.VideoProcessor.constructor | android_app/android_app/app/src/main/java/com/surendramaran/yolov8tflite/VideoProcessor.kt:13 | a new processor has produced nothing |
| VideoProcessing.VideoProcessor.SampleFrames | android_app/android_app/app/src/main/java/com/surendramaran/yolov8tflite/VideoProcessor.kt:51-75 | the imperative sampling loop computes `SampleAfter` for `Iterations` steps: same failure flag, counter, appended progress values and fed frames, and the cursor ends at `Iterations * interval` |
| VideoProcessing.VideoProcessor.DrainEncoder | android_app/android_app/app/src/main/java/com/surendramaran/yolov8tflite/VideoProcessor.kt:79-102 | the imperative drain loop computes `DrainFrom` from the initial drain state: same throw flag, track index, started flag and appended muxer calls |
| VideoProcessing.VideoProcessor.ProcessVideo | android_app/android_app/app/src/main/java/com/surendramaran/yolov8tflite/VideoProcessor.kt:15-118 | running `processVideo` leaves exactly the record `Run(env)`, the run writing to `OutputPath(env)`, to which all the lemmas above apply |
| VideoProcessing.VideoProcessor.ProcessVideoTo | android_app/android_app/app/src/main/java/com/surendramaran/yolov8tflite/VideoProcessor.kt:20-117 | the worker thread's body, with the output file already named, leaves exactly the record `RunTo(env, outputPath)` |
| VideoProcessing.VideoProcessor.Transcode | android_app/android_app/app/src/main/java/com/surendramaran/yolov8tflite/VideoProcessor.kt:51-116 | the run after configuration yields `AfterSampling` of the sampling loop's result, and leaves the format unchanged |

## Left out

- Decoding, object detection, drawing and feeding the encoder surface (lines 57, 64-68, 120-174): a timestamp's frame, boxes and failure are inputs (`FrameSource`); pixels are not modelled. A detector that never calls back would hang `latch.await()`; the model does not capture that.
- `MediaCodec` and `MediaMuxer` internals: the encoder's output is a script of `dequeueOutputBuffer` results, and running out of script counts as `INFO_TRY_AGAIN_LATER`. `muxer.stop()` on a muxer that was never started throws, and the model includes that. The platform's other state checks are left out: a second `addTrack` after `start` does not throw in the model. Exceptions from `addTrack`, `start`, `writeSampleData` or `releaseOutputBuffer` inside the drain are left out too. The only throw inside the drain that the model includes is the code's own "Muxer hasn't started".
- Platform failures outside the loops are a single `Fault` input. Its positions are setup (lines 22-47), `signalEndOfInputStream` (line 77) and teardown (lines 104-108). Which of the setup calls failed is not distinguished.
- Parsing the metadata strings (`toInt`, `toLong`, `toFloat().toInt()`) is not modelled. Metadata values arrive already parsed, or as `None` when absent. A malformed string throws `NumberFormatException`, which the model counts as a `SetupFault`.
- The movies directory is a plain string. The case where `getExternalFilesDir` returns null, so that `File(null, name)` is relative, is not modelled.
- Sampling.Iterations: the `Long` cursor is unbounded in the model. It could only overflow within one interval of `Long.MAX_VALUE`, which a metadata duration does not reach.
- VideoProcessing.Stalls: a run with a frame rate in -1000..-1 and a positive duration is recorded with no frames, no progress and no completion. The real loop visits 0, -i, -2i, ... Each visit that yields a frame is processed and fed. Because `totalFrames` is coerced to 1, each such visit reports progress 100. The first visit whose step throws ends the run with `onComplete("")`. Without a throw, the loop runs until the cursor wraps past `Long.MIN_VALUE`. A terminating model cannot follow such a run, so these frames, progress values and the "" completion are left out.
- VideoProcessing.CompletionContract: for a stalled run it states only that the model records no completion. In the code, a stalled run whose visited step throws does call `onComplete("")` (see `VideoProcessing.Stalls` above).
- VideoProcessing.RunTo: a stalled run is recorded with no frames, no progress values and no completion. In the code, such a run completes with `onComplete("")` as soon as a visited step throws, after feeding the frames of the earlier visits (see `VideoProcessing.Stalls` above).
- VideoProcessing.VideoProcessor.ProcessVideoTo: on a stalled run it returns without running the sampling loop or calling onComplete. The code runs the loop and completes with `onComplete("")` when a visited step throws (see `VideoProcessing.Stalls` above).
- Sampling.ProgressNonDecreasing: monotonicity is stated only up to `MaxExactFrames` (21,474,836) frames. Beyond that, `processedFrames * 100` wraps as a 32-bit `Int` and progress really drops; `Sampling.ProgressDropsAfterOverflow` shows this.
- Errors that are not `Exception`s escape `catch (e: Exception)`. Examples are an `OutOfMemoryError` from `bitmap.copy` (line 64) or from creating the `Detector` (lines 124-136). The worker thread then dies and `onComplete` is never called. `VideoProcessing.CompletionContract` and `VideoProcessing.ExactlyOneCompletion` treat every failure the model includes as an `Exception`, and the model has no such `Error` input.
- The worker `Thread`, the caller's threads and callbacks are not modelled: `processVideo` is modelled as running to its end. The `Log` calls and the `TAG` constant are left out too.
- VideoProcessing.FormatFor: the colour-format key (`COLOR_FormatSurface`) is not represented in `EncoderFormat`.
