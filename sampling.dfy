/** The sampling side of `processVideo`: how the frame interval and the frame
    total follow from the metadata, which timestamps the cursor visits, what
    happens at each of them, and the progress percentages that come out. */
module Sampling {
  import opened Wrappers
  import opened KotlinInt

  /** The frame rate used when the metadata has none. */
  const DefaultFrameRate: Int32 := 30

  /** The largest processed-frame count whose `* 100` still fits in an `Int`. */
  const MaxExactFrames: int := 21_474_836

  /** One detection result, as `drawBoundingBoxes` reads it: corners
      normalised to the frame, and the class label. */
  datatype BoundingBox = BoundingBox(x1: real, y1: real, x2: real, y2: real, clsName: string)

  /** The frame source and the per-frame work, as seen from the loop; each is
      a function of the timestamp in milliseconds. */
  datatype FrameSource = FrameSource(
    // getFrameAtTime(t * 1000, OPTION_CLOSEST) returns a bitmap
    hasFrame: int -> bool,
    // copying that bitmap, detecting on it, drawing on it or feeding it to the encoder throws
    stepThrows: int -> bool,
    // the boxes the detector returns for that frame
    detect: int -> seq<BoundingBox>)

  /** A frame that reached the encoder's input surface: its timestamp and the
      boxes drawn on it. */
  datatype FedFrame = FedFrame(timeMs: int, boxes: seq<BoundingBox>)

  /** `extractMetadata(METADATA_KEY_CAPTURE_FRAMERATE)?.toFloat()?.toInt() ?: 30`,
      given the already truncated value. */
  function FrameRate(metadata: Option<Int32>): (rate: Int32)
    ensures metadata.Some? ==> rate == metadata.value
    ensures metadata.None? ==> rate == 30
  {
    metadata.GetOr(DefaultFrameRate)
  }

  /** `frameIntervalMs = 1000 / frameRate` (a zero rate throws before this). */
  function FrameInterval(frameRate: Int32): (interval: int)
    requires frameRate != 0
    ensures 0 < frameRate <= 1000 ==> 0 < interval && interval * frameRate <= 1000 < (interval + 1) * frameRate
    ensures 1000 < frameRate || frameRate < -1000 ==> interval == 0
    ensures -1000 <= frameRate < 0 ==> interval < 0
  {
    Div(1000, frameRate)
  }

  /** `(durationMs / frameIntervalMs).toInt().coerceAtLeast(1)` (a zero interval throws before this). */
  function TotalFrames(durationMs: Int64, interval: int): (total: int)
    requires interval != 0
    ensures 1 <= total <= IntMax
    ensures 0 <= durationMs && 0 < interval && durationMs / interval <= IntMax ==> total == Max(1, durationMs / interval)
  {
    CoerceAtLeast(Wrap32(Div(durationMs, interval)), 1)
  }

  /** How many times the loop `while (currentTimeMs < durationMs)` runs when
      the cursor starts at 0 and advances by `interval`: ceil(durationMs / interval). */
  function Iterations(durationMs: int, interval: int): (n: nat)
    requires interval > 0 || durationMs <= 0
    ensures durationMs <= 0 ==> n == 0
    ensures durationMs > 0 ==> (n - 1) * interval < durationMs <= n * interval
  {
    if durationMs <= 0 then 0
    else
      var n := (durationMs + interval - 1) / interval;
      assert durationMs + interval - 1 == n * interval + (durationMs + interval - 1) % interval;
      n
  }

  /** The cursor at step `k`, `k * interval`, is below `durationMs` exactly
      for the first `Iterations` steps: the loop visits 0, i, 2i, ... < durationMs
      and nothing else. */
  lemma CursorBelowIff(durationMs: int, interval: int, k: nat)
    requires interval > 0
    ensures k * interval < durationMs <==> k < Iterations(durationMs, interval)
  {
    var n := Iterations(durationMs, interval);
    if durationMs <= 0 {
      MulMonotone(0, k, interval);
    } else if k < n {
      MulMonotone(k, n - 1, interval);
    } else {
      MulMonotone(n, k, interval);
    }
  }

  /** `(processedFrames * 100) / totalFrames` coerced into 0..100, in `Int` arithmetic. */
  function Progress(processedFrames: int, totalFrames: int): (percent: int)
    requires totalFrames >= 1
    ensures 0 <= percent <= 100
    ensures 0 <= processedFrames <= MaxExactFrames ==>
      percent == Min(100, processedFrames * 100 / totalFrames)
  {
    CoerceIn(Div(Wrap32(processedFrames * 100), totalFrames), 0, 100)
  }

  /** Up to `MaxExactFrames`, more processed frames never give a smaller percentage. */
  lemma ProgressMonotone(p: int, q: int, totalFrames: int)
    requires 0 <= p <= q <= MaxExactFrames && totalFrames >= 1
    ensures Progress(p, totalFrames) <= Progress(q, totalFrames)
  {
    DivMonotone(p * 100, q * 100, totalFrames);
  }

  /** Past `MaxExactFrames`, `processedFrames * 100` wraps to a negative `Int`
      and the percentage drops from 99 back to 0. */
  lemma ProgressDropsAfterOverflow()
    ensures Progress(MaxExactFrames, MaxExactFrames + 1) == 99
    ensures Progress(MaxExactFrames + 1, MaxExactFrames + 1) == 0
  {
  }

  /** What the sampling loop has done so far: the `processedFrames` counter,
      the values passed to `progressCallback`, the frames fed to the encoder,
      and whether a step has thrown. */
  datatype Sampled = Sampled(processedFrames: int, progress: seq<int>, fed: seq<FedFrame>, failed: bool)

  /** One iteration at cursor `t`: a timestamp without a frame changes nothing;
      otherwise the frame is annotated and fed, the counter goes up and the new
      percentage is reported. Once a step has thrown, the loop is over. */
  function SampleStep(src: FrameSource, totalFrames: int, s: Sampled, t: int): Sampled
    requires totalFrames >= 1
  {
    if s.failed || !src.hasFrame(t) then s
    else if src.stepThrows(t) then s.(failed := true)
    else
      var processed := Wrap32(s.processedFrames + 1);
      Sampled(processed, s.progress + [Progress(processed, totalFrames)],
              s.fed + [FedFrame(t, src.detect(t))], false)
  }

  /** One iteration either leaves the loop (the step throws), skips the
      timestamp (no frame, or the loop is already over), or feeds exactly one
      frame with its boxes and reports exactly one percentage. */
  lemma SampleStepEffect(src: FrameSource, totalFrames: int, s: Sampled, t: int)
    requires totalFrames >= 1
    ensures s.failed ==> SampleStep(src, totalFrames, s, t) == s
    ensures SampleStep(src, totalFrames, s, t).failed <==>
              s.failed || (src.hasFrame(t) && src.stepThrows(t))
    ensures var r := SampleStep(src, totalFrames, s, t);
      |r.fed| == |s.fed| + 1 <==> !s.failed && src.hasFrame(t) && !src.stepThrows(t)
    ensures var r := SampleStep(src, totalFrames, s, t);
      |r.fed| == |s.fed| + 1 ==>
        && r.fed == s.fed + [FedFrame(t, src.detect(t))]
        && r.progress == s.progress + [Progress(r.processedFrames, totalFrames)]
    ensures var r := SampleStep(src, totalFrames, s, t);
      |r.fed| != |s.fed| + 1 ==> r.fed == s.fed && r.progress == s.progress
  {
  }

  /** The loop's state after its first `k` iterations, at cursors 0, i, ..., (k-1)i. */
  function SampleAfter(src: FrameSource, interval: int, totalFrames: int, k: nat): (r: Sampled)
    requires totalFrames >= 1
    ensures |r.progress| == |r.fed|
    ensures |r.fed| <= k
  {
    if k == 0 then Sampled(0, [], [], false)
    else SampleStep(src, totalFrames, SampleAfter(src, interval, totalFrames, k - 1), (k - 1) * interval)
  }

  /** The step at cursor `k * interval` throws. */
  predicate ThrowsAt(src: FrameSource, interval: int, k: int)
  {
    src.hasFrame(k * interval) && src.stepThrows(k * interval)
  }

  /** The step at cursor `k * interval` yields a frame that goes through. */
  predicate Decodes(src: FrameSource, interval: int, k: int)
  {
    src.hasFrame(k * interval) && !src.stepThrows(k * interval)
  }

  /** How many of the first `k` cursors yield a frame. */
  function Hits(src: FrameSource, interval: int, k: nat): nat
  {
    if k == 0 then 0
    else Hits(src, interval, k - 1) + (if src.hasFrame((k - 1) * interval) then 1 else 0)
  }

  /** Once a step has thrown, further iterations change nothing. */
  lemma {:induction false} SampleFrozenAfterFailure(src: FrameSource, interval: int, totalFrames: int, k: nat, m: nat)
    requires totalFrames >= 1 && k <= m
    requires SampleAfter(src, interval, totalFrames, k).failed
    ensures SampleAfter(src, interval, totalFrames, m) == SampleAfter(src, interval, totalFrames, k)
  {
    if m > k {
      SampleFrozenAfterFailure(src, interval, totalFrames, k, m - 1);
    }
  }

  /** The loop fails exactly when some visited timestamp yields a frame whose step throws. */
  lemma {:induction false} SampleFailsIff(src: FrameSource, interval: int, totalFrames: int, k: nat)
    requires totalFrames >= 1
    ensures SampleAfter(src, interval, totalFrames, k).failed <==>
      exists j :: 0 <= j < k && ThrowsAt(src, interval, j)
  {
    if k > 0 {
      SampleFailsIff(src, interval, totalFrames, k - 1);
      if ThrowsAt(src, interval, k - 1) {
        assert !SampleAfter(src, interval, totalFrames, k - 1).failed ==>
          SampleAfter(src, interval, totalFrames, k).failed;
      }
    }
  }

  /** Without a failure, the frames processed are exactly the visited
      timestamps that yielded a frame; skipped timestamps count for nothing. */
  lemma {:induction false} SampleCountsHits(src: FrameSource, interval: int, totalFrames: int, k: nat)
    requires totalFrames >= 1
    requires !SampleAfter(src, interval, totalFrames, k).failed
    ensures |SampleAfter(src, interval, totalFrames, k).fed| == Hits(src, interval, k)
  {
    if k > 0 {
      SampleCountsHits(src, interval, totalFrames, k - 1);
    }
  }

  /** A fed frame is a visited cursor below `bound` that yielded a frame,
      carrying the detector's boxes for it. */
  predicate FedFrom(src: FrameSource, interval: int, f: FedFrame, bound: int)
    requires interval > 0
  {
    && 0 <= f.timeMs < bound
    && f.timeMs % interval == 0
    && src.hasFrame(f.timeMs)
    && f.boxes == src.detect(f.timeMs)
  }

  /** The counter is the number of fed frames (in `Int`) and there is one
      percentage per fed frame, the j-th being `Progress(j + 1)`. */
  predicate CountsAgree(totalFrames: int, s: Sampled)
    requires totalFrames >= 1
  {
    && s.processedFrames == Wrap32(|s.fed|)
    && |s.progress| == |s.fed|
    && forall j :: 0 <= j < |s.progress| ==> s.progress[j] == Progress(Wrap32(j + 1), totalFrames)
  }

  /** Every fed frame comes from a cursor below `bound`, in strictly increasing time order. */
  predicate FedInOrder(src: FrameSource, interval: int, s: Sampled, bound: int)
    requires interval > 0
  {
    && (forall j :: 0 <= j < |s.fed| ==> FedFrom(src, interval, s.fed[j], bound))
    && (forall a, b :: 0 <= a < b < |s.fed| ==> s.fed[a].timeMs < s.fed[b].timeMs)
  }

  lemma StepKeepsCounts(src: FrameSource, totalFrames: int, s: Sampled, t: int)
    requires totalFrames >= 1 && CountsAgree(totalFrames, s)
    ensures CountsAgree(totalFrames, SampleStep(src, totalFrames, s, t))
  {
    var s' := SampleStep(src, totalFrames, s, t);
    if s' != s && !s'.failed {
      WrapSucc(s.processedFrames, |s.fed|);
      assert s'.progress == s.progress + [Progress(Wrap32(|s.fed| + 1), totalFrames)];
    }
  }

  lemma StepKeepsOrder(src: FrameSource, interval: int, totalFrames: int, s: Sampled, t: int)
    requires totalFrames >= 1 && interval > 0 && 0 <= t && t % interval == 0
    requires FedInOrder(src, interval, s, t)
    ensures FedInOrder(src, interval, SampleStep(src, totalFrames, s, t), t + interval)
  {
    var s' := SampleStep(src, totalFrames, s, t);
    forall j | 0 <= j < |s.fed| ensures FedFrom(src, interval, s.fed[j], t + interval) {
      assert FedFrom(src, interval, s.fed[j], t);
    }
    if s'.fed != s.fed {
      assert s'.fed == s.fed + [FedFrame(t, src.detect(t))];
    }
  }

  /** What the loop's logs hold after `k` iterations, failed or not: the
      counter is the number of fed frames (in `Int`), there is one percentage
      per fed frame, the j-th being `Progress(j + 1)`, and the fed frames are
      visited cursors with a frame, in strictly increasing time order, each
      carrying the detector's boxes for it. */
  lemma {:induction false} SampleLogs(src: FrameSource, interval: int, totalFrames: int, k: nat)
    requires totalFrames >= 1 && interval > 0
    ensures CountsAgree(totalFrames, SampleAfter(src, interval, totalFrames, k))
    ensures FedInOrder(src, interval, SampleAfter(src, interval, totalFrames, k), k * interval)
  {
    if k > 0 {
      SampleLogs(src, interval, totalFrames, k - 1);
      var prev := SampleAfter(src, interval, totalFrames, k - 1);
      var t := (k - 1) * interval;
      MulMonotone(0, k - 1, interval);
      MulDivCancel(k - 1, interval);
      StepKeepsCounts(src, totalFrames, prev, t);
      StepKeepsOrder(src, interval, totalFrames, prev, t);
      assert t + interval == k * interval;
    }
  }

  /** After the whole loop, the fed frames are visited cursors below
      `durationMs` that yielded a frame, in strictly increasing time order, and
      without a failure they are all of those cursors. */
  lemma SampleFedFrames(src: FrameSource, interval: int, totalFrames: int, durationMs: int)
    requires totalFrames >= 1 && interval > 0
    ensures var n := Iterations(durationMs, interval);
      var s := SampleAfter(src, interval, totalFrames, n);
      && (forall j :: 0 <= j < |s.fed| ==> FedFrom(src, interval, s.fed[j], durationMs))
      && (forall a, b :: 0 <= a < b < |s.fed| ==> s.fed[a].timeMs < s.fed[b].timeMs)
      && (!(exists k :: 0 <= k < n && ThrowsAt(src, interval, k)) ==> |s.fed| == Hits(src, interval, n))
  {
    var n := Iterations(durationMs, interval);
    var s := SampleAfter(src, interval, totalFrames, n);
    SampleLogs(src, interval, totalFrames, n);
    SampleFailsIff(src, interval, totalFrames, n);
    if !s.failed {
      SampleCountsHits(src, interval, totalFrames, n);
    }
    forall j | 0 <= j < |s.fed| ensures FedFrom(src, interval, s.fed[j], durationMs) {
      FedBeforeEnd(src, interval, s.fed[j], durationMs);
    }
  }

  /** A cursor the loop visited lies below `durationMs`. */
  lemma FedBeforeEnd(src: FrameSource, interval: int, f: FedFrame, durationMs: int)
    requires interval > 0
    requires FedFrom(src, interval, f, Iterations(durationMs, interval) * interval)
    ensures FedFrom(src, interval, f, durationMs)
  {
    var n := Iterations(durationMs, interval);
    var m := f.timeMs / interval;
    assert f.timeMs == m * interval;
    CursorBelowIff(durationMs, interval, m);
    if m >= n {
      MulMonotone(n, m, interval);
    }
  }

  /** Incrementing a wrapped counter wraps the incremented count. */
  lemma WrapSucc(counter: int, count: int)
    requires counter == Wrap32(count)
    ensures Wrap32(counter + 1) == Wrap32(count + 1)
  {
  }

  /** As long as at most `MaxExactFrames` frames have been processed, the
      percentages reported are non-decreasing. */
  lemma ProgressNonDecreasing(src: FrameSource, interval: int, totalFrames: int, k: nat)
    requires totalFrames >= 1 && interval > 0
    requires |SampleAfter(src, interval, totalFrames, k).fed| <= MaxExactFrames
    ensures var p := SampleAfter(src, interval, totalFrames, k).progress;
      forall a, b :: 0 <= a <= b < |p| ==> p[a] <= p[b]
  {
    SampleLogs(src, interval, totalFrames, k);
    var p := SampleAfter(src, interval, totalFrames, k).progress;
    forall a, b | 0 <= a <= b < |p| ensures p[a] <= p[b] {
      ProgressMonotone(a + 1, b + 1, totalFrames);
    }
  }

  /** When every visited timestamp yields a frame that goes through, each
      iteration processes one frame. */
  lemma {:induction false} SampleAllDecode(src: FrameSource, interval: int, totalFrames: int, k: nat)
    requires totalFrames >= 1
    requires forall j :: 0 <= j < k ==> Decodes(src, interval, j)
    ensures !SampleAfter(src, interval, totalFrames, k).failed
    ensures |SampleAfter(src, interval, totalFrames, k).fed| == k
  {
    if k > 0 {
      SampleAllDecode(src, interval, totalFrames, k - 1);
      assert Decodes(src, interval, k - 1);
    }
  }

  /** A run in which every visited timestamp yields a frame reports 100 last
      (for a video short enough that the counter stays exact): the loop runs
      ceil(durationMs / interval) times, at least the floor that `totalFrames` holds. */
  lemma ProgressReachesFull(src: FrameSource, durationMs: Int64, interval: int)
    requires durationMs > 0 && interval > 0
    requires Iterations(durationMs, interval) <= MaxExactFrames
    requires forall j :: 0 <= j < Iterations(durationMs, interval) ==> Decodes(src, interval, j)
    ensures var n := Iterations(durationMs, interval);
      var p := SampleAfter(src, interval, TotalFrames(durationMs, interval), n).progress;
      |p| == n && p[n - 1] == 100
  {
    var n := Iterations(durationMs, interval);
    var total := TotalFrames(durationMs, interval);
    SampleAllDecode(src, interval, total, n);
    SampleLogs(src, interval, total, n);
    TotalAtMostIterations(durationMs, interval);
    ProgressFullAt(n, total);
  }

  /** The floor that `totalFrames` holds never exceeds the ceiling the loop runs. */
  lemma TotalAtMostIterations(durationMs: Int64, interval: int)
    requires durationMs > 0 && interval > 0
    ensures TotalFrames(durationMs, interval) <= Iterations(durationMs, interval)
  {
    var n := Iterations(durationMs, interval);
    DivMonotone(durationMs, n * interval, interval);
    MulDivCancel(n, interval);
  }

  /** Having processed at least `totalFrames` frames reports 100. */
  lemma ProgressFullAt(n: int, totalFrames: int)
    requires 1 <= totalFrames <= n <= MaxExactFrames
    ensures Progress(n, totalFrames) == 100
  {
    MulMonotone(totalFrames, n, 100);
    DivAtLeast(n * 100, 100, totalFrames);
  }
}
