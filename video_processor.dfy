/** `VideoProcessor.processVideo`: open the input, configure the encoder,
    sample frames at a fixed interval, annotate and feed each one, drain the
    encoder into the muxer, tear everything down, and report completion once,
    with the output path on success or "" when anything throws.

    The Android objects are inputs: the metadata the retriever returns, a
    `FrameSource` for frame extraction and the per-frame work, the script of
    events the encoder's `dequeueOutputBuffer` returns, and where, if
    anywhere, a platform call outside the loops throws. */
module VideoProcessing {
  import opened Wrappers
  import opened KotlinInt
  import opened FileNames
  import opened Sampling
  import opened EncoderDrain

  const MimeType: string := "video/avc"
  const BitRate: int := 2_000_000
  const KeyFrameIntervalSec: int := 1

  /** The `MediaFormat` the encoder is configured with (its colour format is the input surface). */
  datatype EncoderFormat = EncoderFormat(mime: string, width: int, height: int, bitRate: int, frameRate: int, keyFrameIntervalSec: int)

  /** A platform call outside the two loops that throws: anything from opening
      the retriever to starting the encoder (lines 22-47), `signalEndOfInputStream`,
      or the stop/release calls of the teardown. */
  datatype Fault = NoFault | SetupFault | EndOfStreamFault | TeardownFault

  /** Everything `processVideo` learns from the platform. */
  datatype Platform = Platform(
    uriPath: Option<string>,
    moviesDir: string,
    width: Option<Int32>,
    height: Option<Int32>,
    durationMs: Option<Int64>,
    frameRate: Option<Int32>,
    frames: FrameSource,
    events: seq<EncoderEvent>,
    fault: Fault,
    // the caller's onComplete throws when given the output path
    completionThrows: bool)

  /** `path` names an `_inf.mp4` file directly inside `dir`. */
  predicate OutputFileIn(path: string, dir: string)
  {
    && |path| > |dir| && path[..|dir| + 1] == dir + "/"
    && '/' !in path[|dir| + 1..]
    && |path| >= |Suffix| && path[|path| - |Suffix|..] == Suffix
  }

  /** `outputFile.absolutePath`: the output name inside the app's movies
      directory, so a successful completion never passes "". */
  function OutputPath(env: Platform): (path: string)
    ensures OutputFileIn(path, env.moviesDir)
  {
    var name := OutputFileName(env.uriPath);
    InDirectory(env.moviesDir, name);
    env.moviesDir + "/" + name
  }

  /** `File(dir, name)` with a plain `_inf.mp4` name is a file directly inside `dir`. */
  lemma InDirectory(dir: string, name: string)
    requires '/' !in name && |name| >= |Suffix| && name[|name| - |Suffix|..] == Suffix
    ensures OutputFileIn(dir + "/" + name, dir)
  {
    var path := dir + "/" + name;
    assert path[|dir| + 1..] == name;
    assert path[|path| - |Suffix|..] == name[|name| - |Suffix|..];
  }

  /** The `MediaFormat` of lines 37-42: the encoder runs at the sampling frame
      rate, and a missing width or height is 0. */
  function FormatFor(env: Platform): (format: EncoderFormat)
    ensures format.mime == MimeType && format.bitRate == BitRate && format.keyFrameIntervalSec == KeyFrameIntervalSec
    ensures format.frameRate == FrameRate(env.frameRate)
    ensures format.width == (if env.width.Some? then env.width.value else 0)
    ensures format.height == (if env.height.Some? then env.height.value else 0)
  {
    EncoderFormat(MimeType, env.width.GetOr(0), env.height.GetOr(0), BitRate,
                  FrameRate(env.frameRate), KeyFrameIntervalSec)
  }

  /** `durationMs`, 0 when the metadata has none. */
  function Duration(env: Platform): (durationMs: Int64)
    ensures env.durationMs.Some? ==> durationMs == env.durationMs.value
    ensures env.durationMs.None? ==> durationMs == 0
  {
    env.durationMs.GetOr(0)
  }

  /** A frame rate in -1000..-1 gives a negative interval: with a positive
      duration the cursor moves away from `durationMs`, and the loop only ends
      by a throw (or after the 64-bit cursor wraps around). The model does
      not follow such a run: it records no frame, progress value or completion. */
  predicate Stalls(env: Platform)
  {
    && env.fault != SetupFault
    && FrameRate(env.frameRate) != 0
    && FrameInterval(FrameRate(env.frameRate)) < 0
    && Duration(env) > 0
  }

  /** Everything `processVideo` leaves behind: the configured format, the
      progress values and completion values the callbacks received, the frames
      fed to the encoder, the calls made on the muxer, and whether the
      teardown released encoder, muxer and retriever. */
  datatype RunRecord = RunRecord(
    format: Option<EncoderFormat>,
    progress: seq<int>,
    fed: seq<FedFrame>,
    muxerCalls: seq<MuxerCall>,
    released: bool,
    completions: seq<string>)

  /** The run writing to `outputPath`, stage by stage; every exception lands
      in the one catch, which calls onComplete(""). */
  function RunTo(env: Platform, outputPath: string): (r: RunRecord)
    ensures r.completions == [] <==> Stalls(env)
    ensures r.released ==> |r.completions| >= 1 && r.completions[0] == outputPath
    ensures !r.released && !Stalls(env) ==> r.completions == [""]
    ensures |r.progress| == |r.fed|
  {
    if env.fault == SetupFault then RunRecord(None, [], [], [], false, [""])
    else
      var format := Some(FormatFor(env));
      var rate := FrameRate(env.frameRate);
      if rate == 0 then RunRecord(format, [], [], [], false, [""])
      else
        var interval := FrameInterval(rate);
        var durationMs := Duration(env);
        if interval == 0 then RunRecord(format, [], [], [], false, [""])
        else if interval < 0 && durationMs > 0 then RunRecord(format, [], [], [], false, [])
        else
          var s := SampleAfter(env.frames, interval, TotalFrames(durationMs, interval), Iterations(durationMs, interval));
          AfterSampling(env, outputPath, format, s)
  }

  /** `processVideo(inputUri, ...)`: the run writing to the output path derived from the URI. */
  function Run(env: Platform): (r: RunRecord)
    ensures r.released ==> |r.completions| >= 1 && OutputFileIn(r.completions[0], env.moviesDir)
  {
    var path := OutputPath(env);
    var r := RunTo(env, path);
    assert r.released ==> r.completions[0] == path;
    r
  }

  /** The run once the sampling loop is over: end of input, drain, teardown,
      completion with the output path chosen at setup. `muxer.stop()` throws
      on a muxer that was never started. */
  function AfterSampling(env: Platform, outputPath: string, format: Option<EncoderFormat>, s: Sampled): (r: RunRecord)
    requires |s.progress| == |s.fed|
    ensures r.format == format && r.progress == s.progress && r.fed == s.fed
    ensures r.released ==> !s.failed && |r.completions| >= 1 && r.completions[0] == outputPath
    ensures !r.released ==> r.completions == [""]
  {
    if s.failed || env.fault == EndOfStreamFault then RunRecord(format, s.progress, s.fed, [], false, [""])
    else
      var e := Drain(env.events);
      if e.threw || env.fault == TeardownFault || !e.state.muxerStarted then
        RunRecord(format, s.progress, s.fed, e.state.calls, false, [""])
      else
        RunRecord(format, s.progress, s.fed, e.state.calls, true,
                  [outputPath] + (if env.completionThrows then [""] else []))
  }

  /** Past a successful configuration, the run is the sampling loop followed by `AfterSampling`. */
  lemma RunAfterConfiguring(env: Platform, outputPath: string)
    requires env.fault != SetupFault && FrameRate(env.frameRate) != 0
    requires FrameInterval(FrameRate(env.frameRate)) != 0 && !Stalls(env)
    ensures var interval := FrameInterval(FrameRate(env.frameRate));
      var durationMs := Duration(env);
      RunTo(env, outputPath) == AfterSampling(env, outputPath, Some(FormatFor(env)),
        SampleAfter(env.frames, interval, TotalFrames(durationMs, interval), Iterations(durationMs, interval)))
  {
  }

  /** The conditions under which some step throws, stated without running the loops. */
  ghost predicate Fails(env: Platform)
  {
    || env.fault == SetupFault
    || FrameRate(env.frameRate) == 0
    || (!Stalls(env) &&
        var interval := FrameInterval(FrameRate(env.frameRate));
        || interval == 0
        || (exists k :: 0 <= k < Iterations(Duration(env), interval) && ThrowsAt(env.frames, interval, k))
        || env.fault == EndOfStreamFault
        || !FormatFirstFrom(env.events, 0)
        || env.fault == TeardownFault)
  }

  /** onComplete is called once, with "" exactly when some step throws and
      with the output path otherwise; a second time, with "", only when the
      caller's onComplete itself throws on the path. A stalled run is not
      followed: the model records no completion for it. */
  lemma CompletionContract(env: Platform, outputPath: string)
    ensures Stalls(env) ==> RunTo(env, outputPath).completions == []
    ensures !Stalls(env) ==>
      RunTo(env, outputPath).completions == (if Fails(env) then [""] else [outputPath] + (if env.completionThrows then [""] else []))
  {
    if env.fault != SetupFault && FrameRate(env.frameRate) != 0 && !Stalls(env) {
      var interval := FrameInterval(FrameRate(env.frameRate));
      if interval != 0 {
        var durationMs := Duration(env);
        SampleFailsIff(env.frames, interval, TotalFrames(durationMs, interval), Iterations(durationMs, interval));
        DrainStartsIff(env.events);
      }
    }
  }

  /** Exactly one completion per run that does not stall, when onComplete does
      not itself throw: "" on failure, the output path on success. */
  lemma ExactlyOneCompletion(env: Platform, outputPath: string)
    requires outputPath != "" && !Stalls(env) && !env.completionThrows
    ensures |RunTo(env, outputPath).completions| == 1
    ensures RunTo(env, outputPath).completions[0] == "" <==> Fails(env)
  {
    CompletionContract(env, outputPath);
  }

  /** The teardown that releases encoder, muxer and retriever runs only on
      success: a run that throws leaves them unreleased. */
  lemma ReleasedOnlyOnSuccess(env: Platform, outputPath: string)
    ensures RunTo(env, outputPath).released <==> !Stalls(env) && !Fails(env)
  {
    if env.fault != SetupFault && FrameRate(env.frameRate) != 0 && !Stalls(env) {
      var interval := FrameInterval(FrameRate(env.frameRate));
      if interval != 0 {
        var durationMs := Duration(env);
        SampleFailsIff(env.frames, interval, TotalFrames(durationMs, interval), Iterations(durationMs, interval));
        DrainStartsIff(env.events);
        RunAfterConfiguring(env, outputPath);
      }
    }
  }

  /** In every run, samples are written only after `addTrack` and `start`, to
      the added track, and each written buffer is released right after. */
  lemma RunMuxerOrdered(env: Platform, outputPath: string)
    ensures var calls := RunTo(env, outputPath).muxerCalls;
      WritesAfterStart(calls) && WritesReleased(calls) && ReleasesWritten(calls)
  {
    DrainOrdered(env.events);
  }

  /** Every progress value lies in 0..100, there is one per frame fed to the
      encoder, and (up to `MaxExactFrames` frames) they never decrease. */
  lemma RunProgress(env: Platform, outputPath: string)
    ensures var r := RunTo(env, outputPath);
      && |r.progress| == |r.fed|
      && (forall j :: 0 <= j < |r.progress| ==> 0 <= r.progress[j] <= 100)
      && (|r.fed| <= MaxExactFrames ==> forall a, b :: 0 <= a <= b < |r.progress| ==> r.progress[a] <= r.progress[b])
  {
    if env.fault != SetupFault && FrameRate(env.frameRate) != 0 {
      var interval := FrameInterval(FrameRate(env.frameRate));
      var durationMs := Duration(env);
      if interval > 0 {
        var total := TotalFrames(durationMs, interval);
        var n := Iterations(durationMs, interval);
        SampleLogs(env.frames, interval, total, n);
        if |SampleAfter(env.frames, interval, total, n).fed| <= MaxExactFrames {
          ProgressNonDecreasing(env.frames, interval, total, n);
        }
      }
    }
  }

  /** The frames fed to the encoder are visited timestamps below `durationMs`
      that yielded a frame, in strictly increasing order, each with the
      detector's boxes; when the loop ran to its end, they are all such
      timestamps. */
  lemma RunFedFrames(env: Platform, outputPath: string)
    requires env.fault != SetupFault && FrameRate(env.frameRate) != 0
    requires FrameInterval(FrameRate(env.frameRate)) > 0
    ensures var interval := FrameInterval(FrameRate(env.frameRate));
      var fed := RunTo(env, outputPath).fed;
      && (forall j :: 0 <= j < |fed| ==>
            && 0 <= fed[j].timeMs < Duration(env)
            && fed[j].timeMs % interval == 0
            && env.frames.hasFrame(fed[j].timeMs)
            && fed[j].boxes == env.frames.detect(fed[j].timeMs))
      && (forall a, b :: 0 <= a < b < |fed| ==> fed[a].timeMs < fed[b].timeMs)
      && (!(exists k :: 0 <= k < Iterations(Duration(env), interval) && ThrowsAt(env.frames, interval, k)) ==>
            |fed| == Hits(env.frames, interval, Iterations(Duration(env), interval)))
  {
    var interval := FrameInterval(FrameRate(env.frameRate));
    var durationMs := Duration(env);
    var total := TotalFrames(durationMs, interval);
    SampleFedFrames(env.frames, interval, total, durationMs);
    assert RunTo(env, outputPath).fed == SampleAfter(env.frames, interval, total, Iterations(durationMs, interval)).fed;
  }

  /** A missing frame-rate value samples every 33 ms. */
  lemma MissingFrameRateInterval()
    ensures FrameInterval(FrameRate(None)) == 33
  {
  }

  /** The transcoder's state during one `processVideo` run: the loop variables
      of the code, the muxer's track count, and what has been observed so far. */
  class VideoProcessor {
    var currentTimeMs: int
    var processedFrames: int
    var outputTrackIndex: int
    var muxerStarted: bool
    var muxerTracks: nat

    var format: Option<EncoderFormat>
    var progressLog: seq<int>
    var fedFrames: seq<FedFrame>
    var muxerCalls: seq<MuxerCall>
    var released: bool
    var completions: seq<string>

    function Record(): RunRecord
      reads this
    {
      RunRecord(format, progressLog, fedFrames, muxerCalls, released, completions)
    }

    constructor ()
      ensures Record() == RunRecord(None, [], [], [], false, [])
    {
      currentTimeMs, processedFrames := 0, 0;
      outputTrackIndex, muxerStarted, muxerTracks := -1, false, 0;
      format, progressLog, fedFrames, muxerCalls, released, completions := None, [], [], [], false, [];
    }

    /** The sampling loop (lines 51-75): returns whether a step threw, which
        ends the loop at once. */
    method SampleFrames(src: FrameSource, durationMs: int, frameIntervalMs: int, totalFrames: int) returns (threw: bool)
      requires frameIntervalMs > 0 || durationMs <= 0
      requires totalFrames >= 1
      modifies this`currentTimeMs, this`processedFrames, this`progressLog, this`fedFrames
      ensures var s := SampleAfter(src, frameIntervalMs, totalFrames, Iterations(durationMs, frameIntervalMs));
        && threw == s.failed
        && processedFrames == s.processedFrames
        && progressLog == old(progressLog) + s.progress
        && fedFrames == old(fedFrames) + s.fed
      ensures !threw ==> currentTimeMs == Iterations(durationMs, frameIntervalMs) * frameIntervalMs
    {
      var n := Iterations(durationMs, frameIntervalMs);
      ghost var progress0, fed0 := progressLog, fedFrames;
      ghost var k: nat := 0;
      ghost var s := SampleAfter(src, frameIntervalMs, totalFrames, 0);
      currentTimeMs := 0;
      processedFrames := 0;
      while currentTimeMs < durationMs
        invariant currentTimeMs == k * frameIntervalMs
        invariant k <= n
        invariant s == SampleAfter(src, frameIntervalMs, totalFrames, k)
        invariant !s.failed
        invariant processedFrames == s.processedFrames
        invariant progressLog == progress0 + s.progress
        invariant fedFrames == fed0 + s.fed
        decreases durationMs - currentTimeMs
      {
        assert frameIntervalMs > 0 && k < n by {
          if frameIntervalMs <= 0 || k >= n {
            if frameIntervalMs > 0 {
              CursorBelowIff(durationMs, frameIntervalMs, k);
            }
          }
        }
        assert (k + 1) * frameIntervalMs == currentTimeMs + frameIntervalMs;
        ghost var prev := s;
        s := SampleStep(src, totalFrames, prev, currentTimeMs);
        assert s == SampleAfter(src, frameIntervalMs, totalFrames, k + 1);
        if !src.hasFrame(currentTimeMs) {
          currentTimeMs := currentTimeMs + frameIntervalMs;
          k := k + 1;
          continue;
        }
        if src.stepThrows(currentTimeMs) {
          threw := true;
          SampleFrozenAfterFailure(src, frameIntervalMs, totalFrames, k + 1, n);
          return;
        }
        var boxes := src.detect(currentTimeMs);
        fedFrames := fedFrames + [FedFrame(currentTimeMs, boxes)];
        processedFrames := Wrap32(processedFrames + 1);
        progressLog := progressLog + [Progress(processedFrames, totalFrames)];
        currentTimeMs := currentTimeMs + frameIntervalMs;
        k := k + 1;
      }
      if frameIntervalMs > 0 {
        CursorBelowIff(durationMs, frameIntervalMs, k);
      }
      threw := false;
    }

    /** The drain loop (lines 79-102): returns whether it threw
        `IllegalStateException("Muxer hasn't started")`. */
    method DrainEncoder(events: seq<EncoderEvent>) returns (threw: bool)
      modifies this`outputTrackIndex, this`muxerStarted, this`muxerTracks, this`muxerCalls
      ensures var e := DrainFrom(events, 0, DrainState(-1, false, old(muxerTracks), []));
        && threw == e.threw
        && outputTrackIndex == e.state.outputTrackIndex
        && muxerStarted == e.state.muxerStarted
        && muxerTracks == e.state.tracks
        && muxerCalls == old(muxerCalls) + e.state.calls
    {
      ghost var calls0 := muxerCalls;
      ghost var calls: seq<MuxerCall> := [];
      outputTrackIndex := -1;
      muxerStarted := false;
      var j := 0;
      while true
        invariant j <= |events|
        invariant muxerCalls == calls0 + calls
        invariant DrainFrom(events, j, DrainState(outputTrackIndex, muxerStarted, muxerTracks, calls))
               == DrainFrom(events, 0, DrainState(-1, false, old(muxerTracks), []))
        decreases |events| - j
      {
        if j == |events| {
          // dequeueOutputBuffer timed out: INFO_TRY_AGAIN_LATER
          return false;
        }
        var event := events[j];
        j := j + 1;
        match event {
          case TryAgainLater =>
            return false;
          case OutputFormatChanged =>
            outputTrackIndex := muxerTracks;
            muxerTracks := muxerTracks + 1;
            muxerStarted := true;
            calls := calls + [AddTrack(outputTrackIndex), StartMuxer];
            muxerCalls := muxerCalls + [AddTrack(outputTrackIndex), StartMuxer];
          case OutputBuffersChanged =>
          case OutputBuffer(index, flags, hasData) =>
            if !muxerStarted {
              return true;
            }
            if !hasData {
              continue;
            }
            calls := calls + [WriteSample(outputTrackIndex, index), ReleaseBuffer(index)];
            muxerCalls := muxerCalls + [WriteSample(outputTrackIndex, index), ReleaseBuffer(index)];
            if EndOfStream(flags) {
              return false;
            }
        }
      }
    }

    /** `processVideo(inputUri, onComplete, progressCallback)`, run to its end
        on the worker thread; the logs record this run only. */
    method ProcessVideo(env: Platform)
      modifies this
      ensures Record() == Run(env)
    {
      var outputPath := OutputPath(env);
      ProcessVideoTo(env, outputPath);
    }

    /** The same run, with `outputFile.absolutePath` already computed. */
    method ProcessVideoTo(env: Platform, outputPath: string)
      modifies this
      ensures Record() == RunTo(env, outputPath)
    {
      format, progressLog, fedFrames, muxerCalls, released, completions := None, [], [], [], false, [];
      if env.fault == SetupFault {
        completions := completions + [""];
        return;
      }
      var frameRate := FrameRate(env.frameRate);
      format := Some(FormatFor(env));
      muxerTracks := 0;
      if frameRate == 0 {
        // 1000 / frameRate throws ArithmeticException
        completions := completions + [""];
        return;
      }
      var frameIntervalMs := Div(1000, frameRate);
      var durationMs := Duration(env);
      if frameIntervalMs == 0 {
        // durationMs / frameIntervalMs throws ArithmeticException
        completions := completions + [""];
        return;
      }
      var totalFrames := CoerceAtLeast(Wrap32(Div(durationMs, frameIntervalMs)), 1);
      if frameIntervalMs < 0 && durationMs > 0 {
        // the model does not follow this run (see `Stalls`)
        return;
      }
      assert frameIntervalMs == FrameInterval(frameRate);
      assert totalFrames == TotalFrames(durationMs, frameIntervalMs);
      RunAfterConfiguring(env, outputPath);
      Transcode(env, outputPath, durationMs, frameIntervalMs, totalFrames);
    }

    /** Everything after `muxer` is created: the sampling loop, end of input,
        the drain, the teardown and the completion callback. */
    method Transcode(env: Platform, outputPath: string, durationMs: int, frameIntervalMs: int, totalFrames: int)
      requires frameIntervalMs > 0 || durationMs <= 0
      requires totalFrames >= 1
      requires progressLog == [] && fedFrames == [] && muxerCalls == [] && !released && completions == []
      requires muxerTracks == 0
      modifies this
      ensures format == old(format)
      ensures Record() == AfterSampling(env, outputPath, format,
        SampleAfter(env.frames, frameIntervalMs, totalFrames, Iterations(durationMs, frameIntervalMs)))
    {
      ghost var s := SampleAfter(env.frames, frameIntervalMs, totalFrames, Iterations(durationMs, frameIntervalMs));
      ghost var e := Drain(env.events);
      assert e == DrainFrom(env.events, 0, DrainState(-1, false, muxerTracks, []));
      var threw := SampleFrames(env.frames, durationMs, frameIntervalMs, totalFrames);
      assert progressLog == s.progress && fedFrames == s.fed;
      if threw || env.fault == EndOfStreamFault {
        assert AfterSampling(env, outputPath, format, s) == RunRecord(format, s.progress, s.fed, [], false, [""]);
        completions := completions + [""];
        return;
      }
      threw := DrainEncoder(env.events);
      assert muxerCalls == e.state.calls;
      // muxer.stop() on a muxer that never started throws IllegalStateException
      if threw || env.fault == TeardownFault || !muxerStarted {
        assert AfterSampling(env, outputPath, format, s) == RunRecord(format, s.progress, s.fed, e.state.calls, false, [""]);
        completions := completions + [""];
        return;
      }
      assert AfterSampling(env, outputPath, format, s) == RunRecord(format, s.progress, s.fed, e.state.calls, true,
                                                      [outputPath] + (if env.completionThrows then [""] else []));
      released := true;
      completions := completions + [outputPath];
      if env.completionThrows {
        completions := completions + [""];
      }
    }
  }
}
