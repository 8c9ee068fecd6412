/** The drain loop of `processVideo`, run once after `signalEndOfInputStream`:
    it dequeues encoder outputs until the encoder has nothing more within the
    10 ms timeout or an end-of-stream sample has been written. A format change
    adds the muxer's track and starts the muxer; a sample before that throws. */
module EncoderDrain {

  /** `MediaCodec.BUFFER_FLAG_END_OF_STREAM`. */
  const BufferFlagEndOfStream: bv32 := 4

  /** What one `dequeueOutputBuffer` call returns. */
  datatype EncoderEvent =
    // INFO_TRY_AGAIN_LATER
    | TryAgainLater
    // INFO_OUTPUT_FORMAT_CHANGED
    | OutputFormatChanged
    // INFO_OUTPUT_BUFFERS_CHANGED, a negative code that matches none of the branches
    | OutputBuffersChanged
    // a buffer index, the flags of its BufferInfo, and whether getOutputBuffer returns a buffer
    | OutputBuffer(index: nat, flags: bv32, hasData: bool)

  predicate EndOfStream(flags: bv32)
  {
    flags & BufferFlagEndOfStream != 0
  }

  /** The calls the drain makes on the muxer and on the encoder's output buffers. */
  datatype MuxerCall =
    | AddTrack(track: int)
    | StartMuxer
    | WriteSample(track: int, index: nat)
    | ReleaseBuffer(index: nat)

  /** `outputTrackIndex`, `muxerStarted`, how many tracks the muxer has (it
      numbers them from 0), and the calls made so far. */
  datatype DrainState = DrainState(outputTrackIndex: int, muxerStarted: bool, tracks: nat, calls: seq<MuxerCall>)

  /** Where the drain ended: its state, how many events it dequeued, and
      whether it threw `IllegalStateException("Muxer hasn't started")`. */
  datatype DrainEnd = DrainEnd(state: DrainState, consumed: nat, threw: bool)

  /** The drain from the `j`-th event on. Once the scripted events run out,
      `dequeueOutputBuffer` times out, which is `INFO_TRY_AGAIN_LATER`. */
  function DrainFrom(events: seq<EncoderEvent>, j: nat, s: DrainState): (e: DrainEnd)
    requires j <= |events|
    ensures j <= e.consumed <= |events|
    ensures s.muxerStarted ==> e.state.muxerStarted
    ensures e.threw ==> !s.muxerStarted && e.state == s
    decreases |events| - j
  {
    if j == |events| then DrainEnd(s, j, false)
    else
      match events[j]
      case TryAgainLater => DrainEnd(s, j + 1, false)
      case OutputFormatChanged =>
        DrainFrom(events, j + 1, DrainState(s.tracks, true, s.tracks + 1, s.calls + [AddTrack(s.tracks), StartMuxer]))
      case OutputBuffersChanged => DrainFrom(events, j + 1, s)
      case OutputBuffer(index, flags, hasData) =>
        if !s.muxerStarted then DrainEnd(s, j + 1, true)
        else if !hasData then DrainFrom(events, j + 1, s)
        else
          var s' := s.(calls := s.calls + [WriteSample(s.outputTrackIndex, index), ReleaseBuffer(index)]);
          if EndOfStream(flags) then DrainEnd(s', j + 1, false) else DrainFrom(events, j + 1, s')
  }

  /** `outputTrackIndex = -1`, `muxerStarted = false`, on a muxer without tracks. */
  const Initial: DrainState := DrainState(-1, false, 0, [])

  /** The drain that runs after `signalEndOfInputStream`: when it throws, it
      has made no call on the muxer and has not started it. */
  function Drain(events: seq<EncoderEvent>): (e: DrainEnd)
    ensures e.consumed <= |events|
    ensures e.threw ==> !e.state.muxerStarted && e.state.calls == []
  {
    DrainFrom(events, 0, Initial)
  }

  /** An event after which the loop breaks, unless it throws first. */
  predicate Stops(event: EncoderEvent)
  {
    event.TryAgainLater? || (event.OutputBuffer? && event.hasData && EndOfStream(event.flags))
  }

  /** From the `j`-th event, the first event that is not `OutputBuffersChanged` is a sample. */
  ghost predicate SampleFirstFrom(events: seq<EncoderEvent>, j: nat)
  {
    exists m :: j <= m < |events| && events[m].OutputBuffer? &&
      forall q :: j <= q < m ==> events[q].OutputBuffersChanged?
  }

  /** Once the muxer has started, nothing in the drain throws. */
  lemma {:induction false} StartedNeverThrows(events: seq<EncoderEvent>, j: nat, s: DrainState)
    requires j <= |events| && s.muxerStarted
    ensures !DrainFrom(events, j, s).threw
    decreases |events| - j
  {
    if j < |events| {
      match events[j]
      case TryAgainLater =>
      case OutputFormatChanged =>
        StartedNeverThrows(events, j + 1, DrainState(s.tracks, true, s.tracks + 1, s.calls + [AddTrack(s.tracks), StartMuxer]));
      case OutputBuffersChanged => StartedNeverThrows(events, j + 1, s);
      case OutputBuffer(index, flags, hasData) =>
        if hasData && !EndOfStream(flags) {
          StartedNeverThrows(events, j + 1, s.(calls := s.calls + [WriteSample(s.outputTrackIndex, index), ReleaseBuffer(index)]));
        } else if !hasData {
          StartedNeverThrows(events, j + 1, s);
        }
    }
  }

  lemma {:induction false} DrainFromThrowsIff(events: seq<EncoderEvent>, j: nat, s: DrainState)
    requires j <= |events| && !s.muxerStarted
    ensures DrainFrom(events, j, s).threw <==> SampleFirstFrom(events, j)
    decreases |events| - j
  {
    if j < |events| {
      match events[j]
      case TryAgainLater =>
      case OutputFormatChanged =>
        StartedNeverThrows(events, j + 1, DrainState(s.tracks, true, s.tracks + 1, s.calls + [AddTrack(s.tracks), StartMuxer]));
      case OutputBuffersChanged =>
        DrainFromThrowsIff(events, j + 1, s);
        if SampleFirstFrom(events, j) {
          var m :| j <= m < |events| && events[m].OutputBuffer? &&
            forall q :: j <= q < m ==> events[q].OutputBuffersChanged?;
          assert j + 1 <= m;
          assert SampleFirstFrom(events, j + 1);
        }
        if SampleFirstFrom(events, j + 1) {
          var m :| j + 1 <= m < |events| && events[m].OutputBuffer? &&
            forall q :: j + 1 <= q < m ==> events[q].OutputBuffersChanged?;
          assert forall q :: j <= q < m ==> events[q].OutputBuffersChanged?;
        }
      case OutputBuffer(_, _, _) =>
        assert events[j].OutputBuffer?;
    }
  }

  /** From the `j`-th event, the first event that is not `OutputBuffersChanged` is the format change. */
  ghost predicate FormatFirstFrom(events: seq<EncoderEvent>, j: nat)
  {
    exists m :: j <= m < |events| && events[m].OutputFormatChanged? &&
      forall q :: j <= q < m ==> events[q].OutputBuffersChanged?
  }

  lemma {:induction false} DrainFromStartsIff(events: seq<EncoderEvent>, j: nat, s: DrainState)
    requires j <= |events| && !s.muxerStarted
    ensures DrainFrom(events, j, s).state.muxerStarted <==> FormatFirstFrom(events, j)
    decreases |events| - j
  {
    if j < |events| {
      match events[j]
      case TryAgainLater =>
      case OutputFormatChanged =>
        assert events[j].OutputFormatChanged?;
      case OutputBuffersChanged =>
        DrainFromStartsIff(events, j + 1, s);
        if FormatFirstFrom(events, j) {
          var m :| j <= m < |events| && events[m].OutputFormatChanged? &&
            forall q :: j <= q < m ==> events[q].OutputBuffersChanged?;
          assert j + 1 <= m;
          assert FormatFirstFrom(events, j + 1);
        }
        if FormatFirstFrom(events, j + 1) {
          var m :| j + 1 <= m < |events| && events[m].OutputFormatChanged? &&
            forall q :: j + 1 <= q < m ==> events[q].OutputBuffersChanged?;
          assert forall q :: j <= q < m ==> events[q].OutputBuffersChanged?;
        }
      case OutputBuffer(_, _, _) =>
    }
  }

  /** The drain leaves a started muxer, so that `muxer.stop()` can succeed,
      exactly when, after any `OutputBuffersChanged` events, the first event
      is the format change; it then has not thrown. */
  lemma DrainStartsIff(events: seq<EncoderEvent>)
    ensures Drain(events).state.muxerStarted <==> FormatFirstFrom(events, 0)
    ensures Drain(events).state.muxerStarted ==> !Drain(events).threw
  {
    DrainFromStartsIff(events, 0, Initial);
  }

  /** The drain throws exactly when, after any `OutputBuffersChanged` events,
      the first event is a sample: a sample before the format change. */
  lemma DrainThrowsIff(events: seq<EncoderEvent>)
    ensures Drain(events).threw <==> SampleFirstFrom(events, 0)
  {
    DrainFromThrowsIff(events, 0, Initial);
  }

  /** Every write goes to a track added before it, on a muxer started before it. */
  ghost predicate WritesAfterStart(calls: seq<MuxerCall>)
  {
    forall p :: 0 <= p < |calls| && calls[p].WriteSample? ==>
      AddTrack(calls[p].track) in calls[..p] && StartMuxer in calls[..p]
  }

  /** Every write is followed at once by the release of the same buffer. */
  ghost predicate WritesReleased(calls: seq<MuxerCall>)
  {
    forall p :: 0 <= p < |calls| && calls[p].WriteSample? ==>
      p + 1 < |calls| && calls[p + 1] == ReleaseBuffer(calls[p].index)
  }

  /** Every release comes right after the write of the same buffer. */
  ghost predicate ReleasesWritten(calls: seq<MuxerCall>)
  {
    forall p :: 0 <= p < |calls| && calls[p].ReleaseBuffer? ==>
      0 < p && calls[p - 1].WriteSample? && calls[p - 1].index == calls[p].index
  }

  ghost predicate Ordered(s: DrainState)
  {
    && WritesAfterStart(s.calls)
    && WritesReleased(s.calls)
    && ReleasesWritten(s.calls)
    && (s.muxerStarted ==> AddTrack(s.outputTrackIndex) in s.calls && StartMuxer in s.calls)
  }

  lemma AddTrackKeepsOrdered(s: DrainState)
    requires Ordered(s)
    ensures Ordered(DrainState(s.tracks, true, s.tracks + 1, s.calls + [AddTrack(s.tracks), StartMuxer]))
  {
    var c := s.calls + [AddTrack(s.tracks), StartMuxer];
    var n := |s.calls|;
    assert c[n] == AddTrack(s.tracks) && c[n + 1] == StartMuxer;
    assert forall p :: 0 <= p < n ==> c[p] == s.calls[p];
    forall p | 0 <= p < |c| && c[p].WriteSample?
      ensures AddTrack(c[p].track) in c[..p] && StartMuxer in c[..p]
    {
      assert p < n;
      assert c[..p] == s.calls[..p];
    }
    forall p | 0 <= p < |c| && c[p].WriteSample?
      ensures p + 1 < |c| && c[p + 1] == ReleaseBuffer(c[p].index)
    {
      assert p < n && s.calls[p].WriteSample?;
    }
    forall p | 0 <= p < |c| && c[p].ReleaseBuffer?
      ensures 0 < p && c[p - 1].WriteSample? && c[p - 1].index == c[p].index
    {
      assert p < n && s.calls[p].ReleaseBuffer?;
    }
    assert AddTrack(s.tracks) in c && StartMuxer in c;
  }

  lemma WriteKeepsOrdered(s: DrainState, index: nat)
    requires Ordered(s) && s.muxerStarted
    ensures Ordered(s.(calls := s.calls + [WriteSample(s.outputTrackIndex, index), ReleaseBuffer(index)]))
  {
    var c := s.calls + [WriteSample(s.outputTrackIndex, index), ReleaseBuffer(index)];
    forall p | 0 <= p < |c| && c[p].WriteSample?
      ensures AddTrack(c[p].track) in c[..p] && StartMuxer in c[..p]
    {
      if p < |s.calls| {
        assert c[..p] == s.calls[..p];
      } else {
        assert c[..p] == s.calls;
      }
    }
  }

  lemma {:induction false} DrainFromOrdered(events: seq<EncoderEvent>, j: nat, s: DrainState)
    requires j <= |events| && Ordered(s)
    ensures Ordered(DrainFrom(events, j, s).state)
    decreases |events| - j
  {
    if j < |events| {
      match events[j]
      case TryAgainLater =>
      case OutputFormatChanged =>
        AddTrackKeepsOrdered(s);
        DrainFromOrdered(events, j + 1, DrainState(s.tracks, true, s.tracks + 1, s.calls + [AddTrack(s.tracks), StartMuxer]));
      case OutputBuffersChanged => DrainFromOrdered(events, j + 1, s);
      case OutputBuffer(index, flags, hasData) =>
        if s.muxerStarted && hasData {
          WriteKeepsOrdered(s, index);
          DrainFromOrdered(events, j + 1, s.(calls := s.calls + [WriteSample(s.outputTrackIndex, index), ReleaseBuffer(index)]));
        } else if s.muxerStarted {
          DrainFromOrdered(events, j + 1, s);
        }
    }
  }

  /** `writeSampleData` is only reached after `addTrack` and `start`, on the
      track `addTrack` returned, and each written buffer is released right
      after, and only then. */
  lemma DrainOrdered(events: seq<EncoderEvent>)
    ensures var calls := Drain(events).state.calls;
      WritesAfterStart(calls) && WritesReleased(calls) && ReleasesWritten(calls)
  {
    DrainFromOrdered(events, 0, Initial);
  }

  lemma {:induction false} DrainFromStops(events: seq<EncoderEvent>, j: nat, s: DrainState)
    requires j <= |events|
    ensures var e := DrainFrom(events, j, s);
      && j <= e.consumed <= |events|
      && (forall q :: j <= q < e.consumed - 1 ==> !Stops(events[q]))
      && (e.threw ==> j < e.consumed && events[e.consumed - 1].OutputBuffer?)
      && (!e.threw ==> e.consumed == |events| || (j < e.consumed && Stops(events[e.consumed - 1])))
    decreases |events| - j
  {
    if j < |events| {
      match events[j]
      case TryAgainLater =>
      case OutputFormatChanged =>
        DrainFromStops(events, j + 1, DrainState(s.tracks, true, s.tracks + 1, s.calls + [AddTrack(s.tracks), StartMuxer]));
      case OutputBuffersChanged => DrainFromStops(events, j + 1, s);
      case OutputBuffer(index, flags, hasData) =>
        if s.muxerStarted && hasData && !EndOfStream(flags) {
          DrainFromStops(events, j + 1, s.(calls := s.calls + [WriteSample(s.outputTrackIndex, index), ReleaseBuffer(index)]));
        } else if s.muxerStarted && !hasData {
          DrainFromStops(events, j + 1, s);
        }
    }
  }

  /** The drain ends at the first `TryAgainLater` or right after writing an
      end-of-stream sample (or when it throws): no earlier event stops it. */
  lemma DrainStops(events: seq<EncoderEvent>)
    ensures var e := Drain(events);
      && e.consumed <= |events|
      && (forall q :: 0 <= q < e.consumed - 1 ==> !Stops(events[q]))
      && (e.threw ==> 0 < e.consumed && events[e.consumed - 1].OutputBuffer?)
      && (!e.threw ==> e.consumed == |events| || (0 < e.consumed && Stops(events[e.consumed - 1])))
  {
    DrainFromStops(events, 0, Initial);
  }

  /** The buffer indices written to the muxer, in order. */
  function Written(calls: seq<MuxerCall>): seq<nat>
  {
    if calls == [] then []
    else Written(calls[..|calls| - 1]) + (if calls[|calls| - 1].WriteSample? then [calls[|calls| - 1].index] else [])
  }

  /** The buffer indices of the samples with data among the first `n`
      dequeued events, in order. */
  function DataSamples(events: seq<EncoderEvent>, n: nat): seq<nat>
    requires n <= |events|
  {
    if n == 0 then []
    else DataSamples(events, n - 1) + (if events[n - 1].OutputBuffer? && events[n - 1].hasData then [events[n - 1].index] else [])
  }

  lemma WrittenAddTrack(c: seq<MuxerCall>, track: int)
    ensures Written(c + [AddTrack(track), StartMuxer]) == Written(c)
  {
    var c1 := c + [AddTrack(track)];
    assert (c1 + [StartMuxer])[..|c1|] == c1;
    assert c1[..|c|] == c;
    assert c + [AddTrack(track), StartMuxer] == c1 + [StartMuxer];
  }

  lemma WrittenWrite(c: seq<MuxerCall>, track: int, index: nat)
    ensures Written(c + [WriteSample(track, index), ReleaseBuffer(index)]) == Written(c) + [index]
  {
    var c1 := c + [WriteSample(track, index)];
    assert (c1 + [ReleaseBuffer(index)])[..|c1|] == c1;
    assert c1[..|c|] == c;
    assert c + [WriteSample(track, index), ReleaseBuffer(index)] == c1 + [ReleaseBuffer(index)];
  }

  lemma {:induction false} DrainFromWritesSamples(events: seq<EncoderEvent>, j: nat, s: DrainState)
    requires j <= |events|
    requires Written(s.calls) == DataSamples(events, j)
    ensures var e := DrainFrom(events, j, s);
      !e.threw ==> Written(e.state.calls) == DataSamples(events, e.consumed)
    decreases |events| - j
  {
    if j < |events| {
      match events[j]
      case TryAgainLater =>
        assert DataSamples(events, j + 1) == DataSamples(events, j);
      case OutputFormatChanged =>
        var s' := DrainState(s.tracks, true, s.tracks + 1, s.calls + [AddTrack(s.tracks), StartMuxer]);
        WrittenAddTrack(s.calls, s.tracks);
        assert DataSamples(events, j + 1) == DataSamples(events, j);
        DrainFromWritesSamples(events, j + 1, s');
        assert DrainFrom(events, j, s) == DrainFrom(events, j + 1, s');
      case OutputBuffersChanged =>
        assert DataSamples(events, j + 1) == DataSamples(events, j);
        DrainFromWritesSamples(events, j + 1, s);
        assert DrainFrom(events, j, s) == DrainFrom(events, j + 1, s);
      case OutputBuffer(index, flags, hasData) =>
        if s.muxerStarted && hasData {
          var s' := s.(calls := s.calls + [WriteSample(s.outputTrackIndex, index), ReleaseBuffer(index)]);
          WrittenWrite(s.calls, s.outputTrackIndex, index);
          assert DataSamples(events, j + 1) == DataSamples(events, j) + [index];
          if EndOfStream(flags) {
            assert DrainFrom(events, j, s) == DrainEnd(s', j + 1, false);
          } else {
            DrainFromWritesSamples(events, j + 1, s');
            assert DrainFrom(events, j, s) == DrainFrom(events, j + 1, s');
          }
        } else if s.muxerStarted {
          assert DataSamples(events, j + 1) == DataSamples(events, j);
          DrainFromWritesSamples(events, j + 1, s);
          assert DrainFrom(events, j, s) == DrainFrom(events, j + 1, s);
        }
    }
  }

  /** Unless it throws, the drain writes every dequeued sample that has data,
      in the order dequeued, and writes nothing else. */
  lemma DrainWritesEverySample(events: seq<EncoderEvent>)
    ensures var e := Drain(events);
      !e.threw ==> Written(e.state.calls) == DataSamples(events, e.consumed)
  {
    DrainFromWritesSamples(events, 0, Initial);
  }
}
