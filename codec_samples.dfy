// Two providers of the newer library build that change only what a sample
// request hands out, on top of the base sample provider: the AV1 provider
// puts the stream's configuration OBUs in front of every key frame, and the
// FLAC provider answers the first request after a discontinuity with the
// STREAMINFO metadata block (section 8.1 and 8.2 of RFC 9639) instead of a
// packet.
//
// The base request is the one of module SampleProviding: the sample data
// (buffer, timestamp, duration) is made first, then a missing timestamp is
// filled in, the next expected timestamp moves to the sample's end, the
// times are converted and the discontinuity flag is handed over and cleared.

module CodecSamples {
  import opened Common
  import opened SampleProviding

  /** What GetSampleData gives: the buffer, the timestamp if any, and the duration, in the stream's time base. */
  datatype SampleData = SampleData(buf: seq<Byte>, pts: Option<int>, dur: int)

  /** A sample and the provider state after it. */
  datatype Served = Served(sample: Sample, state: ProviderState)

  /**
   * The part of GetSample after GetSampleData: the sample carries the data's
   * buffer and the pending discontinuity; its timestamp is the data's, or
   * the next expected one; the next expected timestamp moves past it.
   */
  function Finish(s: ProviderState, startOffset: int, tb: TimeBase, d: SampleData): (o: Served)
    ensures o.sample.data == d.buf && o.sample.discontinuous == s.isDiscontinuous
    ensures o.sample.duration == ToHns(tb, d.dur)
    ensures o.sample.pts == ToHns(tb, SamplePts(Packet(d.buf, d.pts, d.dur, false, 0, 0), s.nextSamplePts) - startOffset)
    ensures o.state.nextSamplePts - d.dur == SamplePts(Packet(d.buf, d.pts, d.dur, false, 0, 0), s.nextSamplePts)
    ensures o.state.queue == s.queue && o.state.isSelected == s.isSelected && !o.state.isDiscontinuous
  {
    var pts := if d.pts.Some? then d.pts.value else s.nextSamplePts;
    Served(Sample(d.buf, ToHns(tb, pts - startOffset), ToHns(tb, d.dur), s.isDiscontinuous),
           s.(nextSamplePts := pts + d.dur, isDiscontinuous := false))
  }

  /** The base GetSampleData: the packet's own buffer, timestamp and duration. */
  function PacketData(p: Packet): SampleData
  {
    SampleData(p.data, p.pts, p.duration)
  }

  /** The base GetSample is Finish applied to the fetched packet's data. */
  lemma BaseGetSampleFinishes(s: ProviderState, startOffset: int, tb: TimeBase, deliveries: seq<Delivery>)
    requires s.isSelected
    ensures var f := FetchPacket(s.queue, deliveries);
      f.result.Ok? ==>
        var o := Finish(s.(queue := f.queue), startOffset, tb, PacketData(f.result.value));
        GetSampleOf(s, startOffset, tb, deliveries) == SampleOutcome(Ok(o.sample), o.state, f.used)
  {
  }

  // ---------------------------------------------------------------------
  // AV1

  /**
   * TransformSample: a key frame gets the configuration OBUs (the extradata,
   * which FFmpeg has stripped of its AV1CodecConfigurationRecord) in front
   * of it, when there are any; any other packet is passed on as it is.
   */
  function Av1Transform(configObus: seq<Byte>, p: Packet): (out: seq<Byte>)
    ensures |out| == (if p.isKeyFrame && configObus != [] then |configObus| else 0) + |p.data|
    ensures p.isKeyFrame && configObus != [] ==> out[..|configObus|] == configObus && out[|configObus|..] == p.data
    ensures !(p.isKeyFrame && configObus != []) ==> out == p.data
  {
    if p.isKeyFrame && configObus != [] then configObus + p.data else p.data
  }

  /** Whatever the packet, it is the tail of the output, and what precedes it is all of the configuration or nothing. */
  lemma Av1TransformKeepsPacket(configObus: seq<Byte>, p: Packet)
    ensures var out := Av1Transform(configObus, p);
      var k := |out| - |p.data|;
      && 0 <= k && out[k..] == p.data
      && (k == 0 || out[..k] == configObus)
  {
    var out := Av1Transform(configObus, p);
    if p.isKeyFrame && configObus != [] {
      assert |out| - |p.data| == |configObus|;
    } else {
      assert out[0..] == out;
    }
  }

  /** GetSample of the AV1 provider. */
  function Av1GetSample(s: ProviderState, startOffset: int, tb: TimeBase, configObus: seq<Byte>, deliveries: seq<Delivery>): SampleOutcome
  {
    if !s.isSelected then SampleOutcome(Err(MfEInvalidRequest), s, 0)
    else
      var f := FetchPacket(s.queue, deliveries);
      match f.result
        case Err(e) => SampleOutcome(Err(e), s.(queue := f.queue), f.used)
        case Ok(p) =>
          var d := SampleData(Av1Transform(configObus, p), p.pts, p.duration);
          var o := Finish(s.(queue := f.queue), startOffset, tb, d);
          SampleOutcome(Ok(o.sample), o.state, f.used)
  }

  /**
   * The AV1 provider serves what the base provider serves, with the same
   * timestamp and duration, taken from the packet, and only the buffer
   * transformed.
   */
  lemma Av1IsBaseWithTransformedData(s: ProviderState, startOffset: int, tb: TimeBase, configObus: seq<Byte>, deliveries: seq<Delivery>)
    ensures var o, b := Av1GetSample(s, startOffset, tb, configObus, deliveries), GetSampleOf(s, startOffset, tb, deliveries);
      && o.state == b.state && o.used == b.used && o.result.Ok? == b.result.Ok?
      && (o.result.Err? ==> o.result == b.result)
      && (o.result.Ok? ==>
            var p := FetchPacket(s.queue, deliveries).result.value;
            o.result.value == b.result.value.(data := Av1Transform(configObus, p)))
  {
    if s.isSelected {
      var f := FetchPacket(s.queue, deliveries);
      if f.result.Ok? {
        BaseGetSampleFinishes(s, startOffset, tb, deliveries);
      }
    }
  }

  // ---------------------------------------------------------------------
  // FLAC

  /** Size of the STREAMINFO block (section 8.2 of RFC 9639). */
  const FLAC_STREAMINFO_SIZE: nat := 34

  /**
   * The stream marker "fLaC" and the header of a last metadata block of
   * type 0 (STREAMINFO) and length 34 (section 8.1 of RFC 9639).
   */
  const FLAC_STREAMINFO_HEADER: seq<Byte> := [0x66, 0x4C, 0x61, 0x43, 0x80, 0x00, 0x00, 0x22]

  /**
   * The sample sent on a discontinuity: the header followed by the first 34
   * bytes of the extradata, which must hold that many (E_UNEXPECTED
   * otherwise); it is timed at the start offset with no duration.
   */
  function StreamInfoData(extradata: seq<Byte>, startOffset: int): (r: Result<SampleData>)
    ensures r.Err? <==> |extradata| < FLAC_STREAMINFO_SIZE
    ensures r.Err? ==> r.error == EUnexpected
    ensures r.Ok? ==>
      && |r.value.buf| == 42
      && r.value.buf[..4] == [0x66, 0x4C, 0x61, 0x43]
      && r.value.buf[4] == 0x80
      && BigEndian(r.value.buf[5..8]) == FLAC_STREAMINFO_SIZE
      && r.value.buf[8..] == extradata[..FLAC_STREAMINFO_SIZE]
      && r.value.pts == Some(startOffset) && r.value.dur == 0
  {
    if |extradata| < FLAC_STREAMINFO_SIZE then Err(EUnexpected)
    else
      var buf := FLAC_STREAMINFO_HEADER + extradata[..FLAC_STREAMINFO_SIZE];
      assert buf[5..8] == [0x00, 0x00, 0x22];
      assert BigEndian([0x00, 0x00, 0x22]) == 0x22 by {
        assert [0x00, 0x00, 0x22][..2] == [0x00, 0x00];
        assert [0x00, 0x00][..1] == [0x00];
        assert [0x00][..0] == [];
      }
      Ok(SampleData(buf, Some(startOffset), 0))
  }

  /**
   * GetSample of the FLAC provider: while the stream is discontinuous the
   * STREAMINFO sample is served without touching the queue; otherwise the
   * base request runs.
   */
  function FlacGetSample(s: ProviderState, startOffset: int, tb: TimeBase, extradata: seq<Byte>, deliveries: seq<Delivery>): SampleOutcome
  {
    if !s.isSelected then SampleOutcome(Err(MfEInvalidRequest), s, 0)
    else if s.isDiscontinuous then
      match StreamInfoData(extradata, startOffset)
        case Err(e) => SampleOutcome(Err(e), s, 0)
        case Ok(d) =>
          var o := Finish(s, startOffset, tb, d);
          SampleOutcome(Ok(o.sample), o.state, 0)
    else GetSampleOf(s, startOffset, tb, deliveries)
  }

  /**
   * After a flush, the first request is answered with the STREAMINFO sample
   * at time 0, marked discontinuous, using no read and leaving the queue as
   * it is; the next expected timestamp becomes the start offset; the request
   * after it is an ordinary one.
   */
  lemma FlacHeaderOncePerDiscontinuity(s: ProviderState, startOffset: int, tb: TimeBase, extradata: seq<Byte>,
                                       first: seq<Delivery>, second: seq<Delivery>)
    requires s.isSelected && |extradata| >= FLAC_STREAMINFO_SIZE
    ensures var o := FlacGetSample(Flushed(s), startOffset, tb, extradata, first);
      && o.result.Ok? && o.used == 0
      && o.result.value.data == FLAC_STREAMINFO_HEADER + extradata[..FLAC_STREAMINFO_SIZE]
      && o.result.value.pts == ToHns(tb, 0) && o.result.value.duration == ToHns(tb, 0)
      && o.result.value.discontinuous
      && o.state == Flushed(s).(isDiscontinuous := false, nextSamplePts := startOffset)
      && FlacGetSample(o.state, startOffset, tb, extradata, second) == GetSampleOf(o.state, startOffset, tb, second)
  {
  }

  /** Without a full STREAMINFO block, a discontinuous stream cannot serve anything, and nothing changes. */
  lemma FlacShortExtradataFails(s: ProviderState, startOffset: int, tb: TimeBase, extradata: seq<Byte>, deliveries: seq<Delivery>)
    requires s.isSelected && s.isDiscontinuous && |extradata| < FLAC_STREAMINFO_SIZE
    ensures FlacGetSample(s, startOffset, tb, extradata, deliveries) == SampleOutcome(Err(EUnexpected), s, 0)
  {
  }
}
