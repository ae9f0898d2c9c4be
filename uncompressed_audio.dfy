// The audio provider of the newer library build that hands out decoded PCM:
// a decoded frame that is not already 16-bit samples at the codec's rate and
// channel count goes through a resampler, created on the first frame that
// needs one and released on the first frame that does not; the sample's
// duration is computed from its sample count in integer arithmetic.
//
// The decoder and the resampler are black boxes: a decoded frame is a
// record, and the resampler calls are given by the values they return.

module UncompressedAudio {
  import opened Common
  import Utility

  /** AV_SAMPLE_FMT_S16, interleaved signed 16-bit samples. */
  const AV_SAMPLE_FMT_S16: int := 1

  /** AVERROR_INPUT_CHANGED: the resampler's input changed and it must be reconfigured. */
  const AVERROR_INPUT_CHANGED: AvError := -0x636E_6701

  /**
   * The duration of a sample of `sampleCount` samples at `sampleRate` per
   * second, in the stream's time base: count * den / (rate * num).
   */
  function SampleDuration(sampleCount: int, tb: TimeBase, sampleRate: int): int
    requires sampleRate * tb.num != 0
  {
    TruncDiv(sampleCount * tb.den, sampleRate * tb.num)
  }

  /**
   * With positive operands the duration is the count converted to time-base
   * units, rounded down: it is the largest d with d * rate * num <= count * den.
   */
  lemma SampleDurationRoundsDown(sampleCount: nat, tb: TimeBase, sampleRate: int)
    requires sampleRate > 0 && tb.num > 0 && tb.den > 0
    ensures var d := SampleDuration(sampleCount, tb, sampleRate);
      && d >= 0
      && d * (sampleRate * tb.num) <= sampleCount * tb.den < (d + 1) * (sampleRate * tb.num)
  {
    var a, b := sampleCount * tb.den, sampleRate * tb.num;
    assert a >= 0 && b > 0;
    TruncDivBounds(a, b);
  }

  /** In a time base of 1/rate the duration is the sample count itself. */
  lemma SampleDurationInSampleUnits(sampleCount: nat, sampleRate: int)
    requires sampleRate > 0
    ensures SampleDuration(sampleCount, TimeBase(1, sampleRate), sampleRate) == sampleCount
  {
    var d := SampleDuration(sampleCount, TimeBase(1, sampleRate), sampleRate);
    SampleDurationRoundsDown(sampleCount, TimeBase(1, sampleRate), sampleRate);
    assert d * sampleRate <= sampleCount * sampleRate < (d + 1) * sampleRate;
    if d < sampleCount {
      MulLe(d + 1, sampleCount, sampleRate);
    } else if d > sampleCount {
      MulLe(sampleCount + 1, d, sampleRate);
    }
  }

  /** More samples never make a shorter sample. */
  lemma SampleDurationMonotone(c1: nat, c2: nat, tb: TimeBase, sampleRate: int)
    requires sampleRate > 0 && tb.num > 0 && tb.den > 0
    requires c1 <= c2
    ensures SampleDuration(c1, tb, sampleRate) <= SampleDuration(c2, tb, sampleRate)
  {
    var d1, d2 := SampleDuration(c1, tb, sampleRate), SampleDuration(c2, tb, sampleRate);
    var div := sampleRate * tb.num;
    SampleDurationRoundsDown(c1, tb, sampleRate);
    SampleDurationRoundsDown(c2, tb, sampleRate);
    MulLe(c1, c2, tb.den);
    if d1 > d2 {
      MulLe(d2 + 1, d1, div);
    }
  }

  // ---------------------------------------------------------------------
  // The resampler decision

  /** What the decoder gives: the frame's format, rate, channels, samples and timestamp. */
  datatype AudioFrame = AudioFrame(
    format: int,
    sampleRate: int,
    channels: int,
    nbSamples: int,
    bestEffortTimestamp: int,
    buf: seq<Byte>)

  /**
   * A frame needs resampling unless it already is 16-bit samples at the
   * codec context's rate and channel count.
   */
  predicate ResamplerNeeded(frame: AudioFrame, ctxSampleRate: int, ctxChannels: int)
  {
    frame.format != AV_SAMPLE_FMT_S16 || frame.sampleRate != ctxSampleRate || frame.channels != ctxChannels
  }

  /** The resampler's output format: what the resampled frame is set up with. */
  datatype OutputFormat = OutputFormat(format: int, sampleRate: int, channelLayout: int)

  /**
   * The resampled frame's format fields: set up with an output format when
   * the frame is allocated, or cleared (no format, no rate, no layout) by
   * av_frame_unref once a resampled sample has been taken from it.
   */
  datatype OutputFrame = Configured(fields: OutputFormat) | Cleared

  /**
   * The output format of a new resampler: 16-bit samples at the context's
   * rate, with the context's channel layout, or the default layout for its
   * channel count when the context's layout is unknown (0).
   */
  function ResampledFormat(ctxSampleRate: int, ctxChannelLayout: int, defaultLayout: int): (f: OutputFormat)
    ensures f.format == AV_SAMPLE_FMT_S16 && f.sampleRate == ctxSampleRate
    ensures f.channelLayout == ctxChannelLayout || (ctxChannelLayout == 0 && f.channelLayout == defaultLayout)
  {
    OutputFormat(AV_SAMPLE_FMT_S16, ctxSampleRate, if ctxChannelLayout != 0 then ctxChannelLayout else defaultLayout)
  }

  /** A frame that needs no resampling is already in the output format of a resampler for its context. */
  lemma UnresampledFrameIsOutputFormat(frame: AudioFrame, ctxSampleRate: int, ctxChannels: int, ctxChannelLayout: int, defaultLayout: int)
    requires !ResamplerNeeded(frame, ctxSampleRate, ctxChannels)
    ensures frame.format == ResampledFormat(ctxSampleRate, ctxChannelLayout, defaultLayout).format
    ensures frame.sampleRate == ResampledFormat(ctxSampleRate, ctxChannelLayout, defaultLayout).sampleRate
    ensures frame.channels == ctxChannels
  {
  }

  // ---------------------------------------------------------------------
  // swr_convert_frame with one reconfiguration

  /**
   * The values the resampler calls return: the conversion, and, should it
   * report AVERROR_INPUT_CHANGED, the reconfiguration, the re-initialisation
   * and the second conversion.
   */
  datatype SwrCalls = SwrCalls(convert: int, config: int, init: int, reconvert: int)

  /**
   * The outcome of resampling: None on success, or the HRESULT thrown. An
   * AVERROR_INPUT_CHANGED is answered by one reconfiguration and one more
   * conversion, and the first of those calls to fail is reported.
   */
  function Resample(calls: SwrCalls): (r: Option<HResult>)
    ensures calls.convert != AVERROR_INPUT_CHANGED ==> r == Utility.FfmpegCheck(calls.convert)
    ensures calls.convert == AVERROR_INPUT_CHANGED ==>
      (r.None? <==> calls.config >= 0 && calls.init >= 0 && calls.reconvert >= 0)
    ensures r.Some? ==> r.value != SOk
  {
    if calls.convert == AVERROR_INPUT_CHANGED then
      if calls.config < 0 then Utility.FfmpegCheck(calls.config)
      else if calls.init < 0 then Utility.FfmpegCheck(calls.init)
      else Utility.FfmpegCheck(calls.reconvert)
    else Utility.FfmpegCheck(calls.convert)
  }

  /**
   * There is a single retry: a second AVERROR_INPUT_CHANGED is an error
   * (E_FAIL), and the first failing step of the retry decides the error.
   */
  lemma ResampleRetriesOnce(calls: SwrCalls)
    requires calls.convert == AVERROR_INPUT_CHANGED
    ensures calls.config >= 0 && calls.init >= 0 && calls.reconvert == AVERROR_INPUT_CHANGED ==> Resample(calls) == Some(EFail)
    ensures calls.config < 0 ==> Resample(calls) == Some(Utility.AverrorToHresult(calls.config))
    ensures calls.config >= 0 && calls.init < 0 ==> Resample(calls) == Some(Utility.AverrorToHresult(calls.init))
  {
  }

  /** Success and a plain error of the first conversion involve no other call. */
  lemma ResampleWithoutRetry(calls: SwrCalls, other: SwrCalls)
    requires calls.convert != AVERROR_INPUT_CHANGED && other.convert == calls.convert
    ensures Resample(calls) == Resample(other)
    ensures Resample(calls).None? <==> calls.convert >= 0
  {
  }

  /** The sample GetSampleData returns: its buffer, timestamp and duration. */
  datatype AudioSample = AudioSample(data: seq<Byte>, pts: int, duration: int)

  /** What a resampler turns a frame into: its buffer and sample count. */
  datatype Resampled = Resampled(buf: seq<Byte>, nbSamples: int)

  class UncompressedAudioSampleProvider {
    const ctxSampleRate: int
    const ctxChannels: int
    const ctxChannelLayout: int
    const timeBase: TimeBase
    /** m_swrContext != nullptr. */
    var hasResampler: bool
    /** m_resampledFrame, if allocated: set up with an output format, or cleared. */
    var resampledFrame: Option<OutputFrame>

    /**
     * The resampler and its output frame exist together, and a frame that is
     * still set up is 16-bit at the context's rate.
     */
    predicate Valid()
      reads this
    {
      && hasResampler == resampledFrame.Some?
      && (resampledFrame.Some? && resampledFrame.value.Configured? ==>
            resampledFrame.value.fields.format == AV_SAMPLE_FMT_S16 && resampledFrame.value.fields.sampleRate == ctxSampleRate)
    }

    constructor(ctxSampleRate: int, ctxChannels: int, ctxChannelLayout: int, timeBase: TimeBase)
      ensures this.ctxSampleRate == ctxSampleRate && this.ctxChannels == ctxChannels
      ensures this.ctxChannelLayout == ctxChannelLayout && this.timeBase == timeBase
      ensures !hasResampler && resampledFrame == None && Valid()
    {
      this.ctxSampleRate := ctxSampleRate;
      this.ctxChannels := ctxChannels;
      this.ctxChannelLayout := ctxChannelLayout;
      this.timeBase := timeBase;
      hasResampler := false;
      resampledFrame := None;
    }

    /**
     * InitResamplerIfNeeded: afterwards there is a resampler exactly when the
     * frame needs one. A new one gets a frame in the output format; an
     * existing one is kept as it is, with its frame cleared or not; one no
     * longer needed is released.
     * `defaultLayout` is what av_get_default_channel_layout gives for the
     * context's channel count.
     */
    method InitResamplerIfNeeded(frame: AudioFrame, defaultLayout: int)
      requires Valid()
      modifies this
      ensures Valid()
      ensures hasResampler == ResamplerNeeded(frame, ctxSampleRate, ctxChannels)
      ensures hasResampler && old(hasResampler) ==> resampledFrame == old(resampledFrame)
      ensures hasResampler && !old(hasResampler) ==>
        resampledFrame == Some(Configured(ResampledFormat(ctxSampleRate, ctxChannelLayout, defaultLayout)))
    {
      var needed := frame.format != AV_SAMPLE_FMT_S16 || frame.sampleRate != ctxSampleRate || frame.channels != ctxChannels;
      if needed {
        if !hasResampler {
          hasResampler := true;
          var layout := if ctxChannelLayout != 0 then ctxChannelLayout else defaultLayout;
          resampledFrame := Some(Configured(OutputFormat(AV_SAMPLE_FMT_S16, ctxSampleRate, layout)));
        }
      } else if hasResampler {
        hasResampler := false;
        resampledFrame := None;
      }
    }

    /**
     * GetSampleData for a decoded frame: without a resampler the frame's own
     * buffer and sample count are used; with one, the resampled buffer and
     * count, unless resampling fails. The timestamp is the frame's best
     * effort timestamp and the duration follows from the sample count.
     * A successful resample leaves the output frame cleared, and only a
     * newly allocated resampler sets it up again; how swr_convert_frame
     * answers a cleared frame is part of the given `calls`.
     */
    method GetSampleData(frame: AudioFrame, defaultLayout: int, calls: SwrCalls, output: Resampled)
      returns (r: Result<AudioSample>)
      requires Valid()
      requires ctxSampleRate * timeBase.num != 0
      modifies this
      ensures Valid()
      ensures hasResampler == ResamplerNeeded(frame, ctxSampleRate, ctxChannels)
      ensures !hasResampler ==>
        r == Ok(AudioSample(frame.buf, frame.bestEffortTimestamp,
                            SampleDuration(frame.nbSamples, timeBase, ctxSampleRate)))
      ensures hasResampler && Resample(calls).Some? ==> r == Err(Resample(calls).value)
      ensures hasResampler && Resample(calls).None? ==>
        r == Ok(AudioSample(output.buf, frame.bestEffortTimestamp,
                            SampleDuration(output.nbSamples, timeBase, ctxSampleRate)))
      ensures r.Err? ==> r.error != SOk
      ensures !hasResampler ==> resampledFrame == None
      ensures hasResampler && Resample(calls).None? ==> resampledFrame == Some(Cleared)
      ensures hasResampler && Resample(calls).Some? ==>
        resampledFrame == if old(hasResampler) then old(resampledFrame)
                          else Some(Configured(ResampledFormat(ctxSampleRate, ctxChannelLayout, defaultLayout)))
    {
      InitResamplerIfNeeded(frame, defaultLayout);
      var data: seq<Byte>;
      var sampleCount: int;
      if !hasResampler {
        data, sampleCount := frame.buf, frame.nbSamples;
      } else {
        var failure := Resample(calls);
        if failure.Some? {
          return Err(failure.value);
        }
        data, sampleCount := output.buf, output.nbSamples;
        resampledFrame := Some(Cleared);
      }
      var dur := TruncDiv(sampleCount * timeBase.den, ctxSampleRate * timeBase.num);
      r := Ok(AudioSample(data, frame.bestEffortTimestamp, dur));
    }
  }
}
