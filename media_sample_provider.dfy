// MediaSampleProvider: the per-stream provider of the newer library build.
// A provider is enabled or disabled; while enabled it queues the packets the
// reader routes to it. A sample request pops packets, reading from the file
// while the queue is empty, hands each to the provider's decoder, and stops
// at the first complete frame. Broken packets are skipped, at most ten per
// request, and each one marks the stream discontinuous. A packet without a
// timestamp is placed where the previous frame ended.
//
// Neither the reader nor the decoder is part of this model. Each read during
// a request is an input: a packet for this stream, a packet for another
// stream, or an AVERROR code; after the last given read the file is at its
// end. The verdict of the concrete provider's decoder on the k-th packet
// popped in a request is the k-th input verdict; once the verdicts run out
// the decoder is the base one, which completes every packet. The packet
// that completed the frame is then written out by the provider's
// WriteAVPacketToStream: the base copy, or the H.264 AVC override, which
// can fail.

module MediaSampleProviding {
  import opened Common
  import SampleProviding
  import H264Avc

  /** What one FFmpegReader::ReadPacket call does, as far as this provider sees it. */
  datatype Read = Delivered(pkt: Packet) | OtherStream | ReadError(code: AvError)

  /**
   * What DecodeAVPacket reports for a packet: a complete frame (S_OK), a
   * packet that needs more input (S_FALSE), or a failure code.
   */
  datatype Verdict = Complete | Partial | Broken(hr: Failure)

  type Failure = hr: HResult | hr != SOk witness EFail

  /** Broken packets skipped in one request at most (the `errorCount++ < 10` test). */
  const MAX_SKIPPED: nat := 10

  // ---------------------------------------------------------------------
  // Timestamps of the base decoder

  /** The timestamp DecodeAVPacket gives a frame, and the next frame's. */
  datatype Stamp = Stamp(pts: int, next: int)

  /**
   * A packet with a timestamp keeps it; one without starts where the
   * previous frame ended, or at the stream's start time (0 if it has none)
   * when there was no previous frame. Either way the next frame starts
   * where this one ends.
   */
  function Stamped(p: Packet, nextFramePts: Option<int>, streamStart: Option<int>): (s: Stamp)
    ensures p.pts.Some? ==> s.pts == p.pts.value
    ensures p.pts.None? && nextFramePts.Some? ==> s.pts == nextFramePts.value
    ensures p.pts.None? && nextFramePts.None? ==> s.pts == SampleProviding.StartTime(streamStart)
    ensures s.next == s.pts + p.duration
  {
    var pts :=
      if p.pts.Some? then p.pts.value
      else if nextFramePts.Some? then nextFramePts.value
      else SampleProviding.StartTime(streamStart);
    Stamp(pts, pts + p.duration)
  }

  /** The timestamps the base decoder gives a run of packets. */
  function Stamps(nextFramePts: Option<int>, streamStart: Option<int>, pkts: seq<Packet>): (ts: seq<int>)
    ensures |ts| == |pkts|
    decreases |pkts|
  {
    if pkts == [] then []
    else
      var s := Stamped(pkts[0], nextFramePts, streamStart);
      [s.pts] + Stamps(Some(s.next), streamStart, pkts[1..])
  }

  /**
   * Packets without timestamps after a frame are laid end to end from where
   * that frame ended.
   */
  lemma {:induction false} StampsBackFill(next: int, streamStart: Option<int>, pkts: seq<Packet>, i: nat)
    requires SampleProviding.NoTimestamps(pkts) && i < |pkts|
    ensures Stamps(Some(next), streamStart, pkts)[i] == next + SampleProviding.TotalDuration(pkts[..i])
    decreases i
  {
    if i > 0 {
      var rest := pkts[1..];
      assert SampleProviding.NoTimestamps(rest) by {
        forall j | 0 <= j < |rest| ensures rest[j].pts.None? { assert rest[j] == pkts[j + 1]; }
      }
      StampsBackFill(next + pkts[0].duration, streamStart, rest, i - 1);
      assert pkts[..i][1..] == rest[..i - 1];
    } else {
      assert pkts[..0] == [];
    }
  }

  /**
   * Before any frame, packets without timestamps are laid end to end from
   * the stream's start time.
   */
  lemma StampsFromStreamStart(streamStart: Option<int>, pkts: seq<Packet>, i: nat)
    requires SampleProviding.NoTimestamps(pkts) && i < |pkts|
    ensures Stamps(None, streamStart, pkts)[i] == SampleProviding.StartTime(streamStart) + SampleProviding.TotalDuration(pkts[..i])
  {
    var start := SampleProviding.StartTime(streamStart);
    if i == 0 {
      assert pkts[..0] == [];
    } else {
      var rest := pkts[1..];
      assert SampleProviding.NoTimestamps(rest) by {
        forall j | 0 <= j < |rest| ensures rest[j].pts.None? { assert rest[j] == pkts[j + 1]; }
      }
      var next := start + pkts[0].duration;
      assert Stamped(pkts[0], None, streamStart) == Stamp(start, next);
      assert Stamps(None, streamStart, pkts) == [start] + Stamps(Some(next), streamStart, rest);
      StampsBackFill(next, streamStart, rest, i - 1);
      assert pkts[..i][1..] == rest[..i - 1];
      assert SampleProviding.TotalDuration(pkts[..i]) == pkts[0].duration + SampleProviding.TotalDuration(rest[..i - 1]);
    }
  }

  // ---------------------------------------------------------------------
  // GetNextPacket

  /** The outcome of the inner loop: a packet reached the queue, or the read failed. */
  datatype Refill = Refill(hr: HResult, pkt: Option<Packet>, used: nat)

  /**
   * Reads until a packet reaches this provider's queue (which is empty).
   * AVERROR_EOF, and running out of input, end the request with
   * MF_E_END_OF_STREAM; any other error with E_FAIL. A packet for this
   * stream is queued only while the stream is enabled.
   */
  function ReadUntilQueued(isEnabled: bool, feed: seq<Read>, used: nat): (r: Refill)
    requires used <= |feed|
    ensures used <= r.used <= |feed|
    ensures r.pkt.Some? <==> r.hr == SOk
    ensures r.pkt.Some? ==> isEnabled && used < r.used && feed[r.used - 1] == Delivered(r.pkt.value)
    ensures r.hr == SOk || r.hr == EFail || r.hr == MfEEndOfStream
    ensures r.hr == EFail ==>
      used < r.used && feed[r.used - 1].ReadError? && feed[r.used - 1].code != AVERROR_EOF
    ensures r.hr == MfEEndOfStream ==> r.used == |feed| || (0 < r.used && feed[r.used - 1] == ReadError(AVERROR_EOF))
    decreases |feed| - used
  {
    if used == |feed| then Refill(MfEEndOfStream, None, used)
    else match feed[used]
      case Delivered(p) =>
        if isEnabled then Refill(SOk, Some(p), used + 1) else ReadUntilQueued(isEnabled, feed, used + 1)
      case OtherStream => ReadUntilQueued(isEnabled, feed, used + 1)
      case ReadError(code) => Refill(if code == AVERROR_EOF then MfEEndOfStream else EFail, None, used + 1)
  }

  /** Reads that hand this provider nothing it keeps. */
  predicate Passed(isEnabled: bool, r: Read)
  {
    r.OtherStream? || (r.Delivered? && !isEnabled)
  }

  /** Reads before the first one that queues a packet or fails are passed over. */
  lemma {:induction false} ReadUntilQueuedSkips(isEnabled: bool, feed: seq<Read>, used: nat, j: nat)
    requires used <= j < |feed| && ReadUntilQueued(isEnabled, feed, used).used > j + 1
    ensures Passed(isEnabled, feed[j])
    decreases j - used
  {
    if j > used {
      ReadUntilQueuedSkips(isEnabled, feed, used + 1, j);
    }
  }

  /** The loop state of GetNextPacket: the queue, reads so far, packets decoded, and the fields it updates. */
  datatype Walk = Walk(
    queue: seq<Packet>,
    used: nat,
    decoded: nat,
    errorCount: nat,
    isDiscontinuous: bool,
    nextFramePts: Option<int>)

  /** A complete frame: its packet, timestamp and duration in the stream's time base. */
  datatype Frame = Frame(pkt: Packet, pts: int, duration: int)

  datatype Fetched = Fetched(result: Result<Frame>, walk: Walk)

  /** The decoder's verdict on the k-th packet of a request. */
  function VerdictAt(verdicts: seq<Verdict>, k: nat): Verdict
  {
    if k < |verdicts| then verdicts[k] else Complete
  }

  datatype Popped = Popped(hr: HResult, pkt: Option<Packet>, walk: Walk)

  /** The front of the queue, refilling it from the reader first when it is empty. */
  function PopNext(isEnabled: bool, w: Walk, feed: seq<Read>): (r: Popped)
    requires w.used <= |feed|
    ensures w.used <= r.walk.used <= |feed|
    ensures r.pkt.Some? <==> r.hr == SOk
    ensures r.pkt.Some? ==> |feed| - r.walk.used + |r.walk.queue| < |feed| - w.used + |w.queue|
    ensures r.pkt.None? ==> r.walk.queue == []
  {
    if w.queue != [] then Popped(SOk, Some(w.queue[0]), w.(queue := w.queue[1..]))
    else
      var f := ReadUntilQueued(isEnabled, feed, w.used);
      Popped(f.hr, f.pkt, w.(used := f.used))
  }

  /** The walk after the decoder rejected a packet: discontinuous, and one more error counted when skipping is on. */
  function Rejected(w: Walk, allowSkip: bool): (w': Walk)
    ensures w'.isDiscontinuous
    ensures w'.errorCount == if allowSkip then w.errorCount + 1 else w.errorCount
  {
    w.(isDiscontinuous := true, errorCount := if allowSkip then w.errorCount + 1 else w.errorCount)
  }

  /** The decoder failed the packet with code `hr`. */
  predicate FailedWith(v: Verdict, hr: HResult)
  {
    v.Broken? && v.hr == hr
  }

  /** One round of the outer loop: the request ends, or goes on from a new loop state. */
  datatype Turn = Done(fetched: Fetched) | Again(next: Walk)

  /** The measure that each round of the outer loop lowers. */
  function Remaining(w: Walk, feed: seq<Read>): int
  {
    |feed| - w.used + |w.queue|
  }

  /**
   * One round of the outer loop of GetNextPacket: pop a packet and decode
   * it; a complete frame ends the request; a rejected packet marks the
   * stream discontinuous and is skipped when it needs more input or when
   * skipping is allowed and fewer than ten errors were counted; a failure
   * that is not skipped ends the request with its code.
   */
  function Round(isEnabled: bool, w: Walk, feed: seq<Read>, verdicts: seq<Verdict>, allowSkip: bool, streamStart: Option<int>): (t: Turn)
    requires w.used <= |feed|
    ensures t.Again? ==>
      && w.used <= t.next.used <= |feed| && Remaining(t.next, feed) < Remaining(w, feed)
      && t.next.decoded == w.decoded + 1 && t.next.isDiscontinuous
      && VerdictAt(verdicts, w.decoded) != Complete
      && t.next.errorCount == (if allowSkip then w.errorCount + 1 else w.errorCount)
    ensures t.Done? ==> w.used <= t.fetched.walk.used <= |feed|
    ensures t.Done? ==> w.isDiscontinuous ==> t.fetched.walk.isDiscontinuous
    ensures t.Done? && t.fetched.result.Ok? ==>
      t.fetched.walk.decoded == w.decoded + 1 && VerdictAt(verdicts, w.decoded) == Complete
      && t.fetched.walk.isDiscontinuous == w.isDiscontinuous
    ensures t.Done? && t.fetched.result.Err? ==>
      || (t.fetched.walk.decoded == w.decoded && t.fetched.walk.queue == [])
      || (t.fetched.walk.decoded == w.decoded + 1 && FailedWith(VerdictAt(verdicts, w.decoded), t.fetched.result.error))
    ensures t.Done? ==> Remaining(t.fetched.walk, feed) <= Remaining(w, feed)
    ensures t.Done? && t.fetched.result.Err? ==> t.fetched.result.error != SOk
  {
    var n := PopNext(isEnabled, w, feed);
    if n.pkt.None? then Done(Fetched(Err(n.hr), n.walk))
    else
      var p := n.pkt.value;
      var v := VerdictAt(verdicts, n.walk.decoded);
      var w1 := n.walk.(decoded := n.walk.decoded + 1);
      if v == Complete then
        var s := Stamped(p, w1.nextFramePts, streamStart);
        Done(Fetched(Ok(Frame(p, s.pts, p.duration)), w1.(nextFramePts := Some(s.next))))
      else
        var w2 := Rejected(w1, allowSkip);
        if v.Broken? && !(allowSkip && w1.errorCount < MAX_SKIPPED) then Done(Fetched(Err(v.hr), w2))
        else Again(w2)
  }

  /** The outer loop of GetNextPacket from loop state `w`, round after round. */
  function Fetch(isEnabled: bool, w: Walk, feed: seq<Read>, verdicts: seq<Verdict>, allowSkip: bool, streamStart: Option<int>): (o: Fetched)
    requires w.used <= |feed|
    ensures w.used <= o.walk.used <= |feed|
    ensures w.decoded <= o.walk.decoded
    ensures w.isDiscontinuous ==> o.walk.isDiscontinuous
    ensures o.result.Ok? ==> w.decoded < o.walk.decoded && VerdictAt(verdicts, o.walk.decoded - 1) == Complete
    ensures o.result.Err? ==> o.result.error != SOk
    ensures o.result.Err? && o.walk.decoded > w.decoded ==>
      o.walk.queue == [] || FailedWith(VerdictAt(verdicts, o.walk.decoded - 1), o.result.error)
    decreases Remaining(w, feed)
  {
    match Round(isEnabled, w, feed, verdicts, allowSkip, streamStart)
    case Done(f) => f
    case Again(w') => Fetch(isEnabled, w', feed, verdicts, allowSkip, streamStart)
  }

  /** Where a round leaves the request: its outcome, or the rest of the loop. */
  function Settle(isEnabled: bool, t: Turn, feed: seq<Read>, verdicts: seq<Verdict>, allowSkip: bool, streamStart: Option<int>): Fetched
    requires t.Again? ==> t.next.used <= |feed|
  {
    match t
    case Done(f) => f
    case Again(w) => Fetch(isEnabled, w, feed, verdicts, allowSkip, streamStart)
  }

  /** No verdict among the k packets decoded from `from` completes a frame. */
  predicate Rejects(verdicts: seq<Verdict>, from: nat, k: nat)
  {
    forall j :: from <= j < from + k ==> VerdictAt(verdicts, j) != Complete
  }

  /**
   * While skipping is allowed and the error budget lasts, m rejected packets
   * at the front of the queue are passed over: the request goes on with the
   * rest of the queue, m more errors counted, and the stream discontinuous.
   */
  lemma {:induction false} SkipsRejected(isEnabled: bool, w: Walk, feed: seq<Read>, verdicts: seq<Verdict>, streamStart: Option<int>, m: nat)
    requires w.used <= |feed| && m <= |w.queue|
    requires w.errorCount + m <= MAX_SKIPPED
    requires Rejects(verdicts, w.decoded, m)
    ensures Fetch(isEnabled, w, feed, verdicts, true, streamStart)
         == Fetch(isEnabled, Skipped(w, m), feed, verdicts, true, streamStart)
    decreases m
  {
    if m == 0 {
      assert w.queue[0..] == w.queue;
      assert Skipped(w, 0) == w;
    } else {
      var w2 := Rejected(w.(queue := w.queue[1..], decoded := w.decoded + 1), true);
      SkipOne(isEnabled, w, feed, verdicts, streamStart);
      SkipsRejected(isEnabled, w2, feed, verdicts, streamStart, m - 1);
      SkippedAfterOne(w, m);
    }
  }

  /** The loop state after m packets were passed over by skipping. */
  function Skipped(w: Walk, m: nat): Walk
    requires m <= |w.queue|
  {
    w.(queue := w.queue[m..], decoded := w.decoded + m, errorCount := w.errorCount + m,
       isDiscontinuous := w.isDiscontinuous || m > 0)
  }

  lemma SkipOne(isEnabled: bool, w: Walk, feed: seq<Read>, verdicts: seq<Verdict>, streamStart: Option<int>)
    requires w.used <= |feed| && w.queue != [] && w.errorCount < MAX_SKIPPED
    requires VerdictAt(verdicts, w.decoded) != Complete
    ensures Round(isEnabled, w, feed, verdicts, true, streamStart)
         == Again(Rejected(w.(queue := w.queue[1..], decoded := w.decoded + 1), true))
  {
  }

  lemma SkippedAfterOne(w: Walk, m: nat)
    requires 0 < m <= |w.queue|
    ensures Skipped(Rejected(w.(queue := w.queue[1..], decoded := w.decoded + 1), true), m - 1) == Skipped(w, m)
  {
    assert w.queue[1..][m - 1..] == w.queue[m..];
  }

  /**
   * Up to ten broken packets in front of a good one are skipped: the request
   * delivers the good one and reports the stream discontinuous if any was
   * skipped.
   */
  lemma SkipsUpToTen(isEnabled: bool, queue: seq<Packet>, discontinuous: bool, next: Option<int>, feed: seq<Read>,
                     verdicts: seq<Verdict>, streamStart: Option<int>, m: nat)
    requires m <= MAX_SKIPPED && m < |queue|
    requires Rejects(verdicts, 0, m) && VerdictAt(verdicts, m) == Complete
    ensures var o := Fetch(isEnabled, Walk(queue, 0, 0, 0, discontinuous, next), feed, verdicts, true, streamStart);
      o.result.Ok? && o.result.value.pkt == queue[m] && o.walk.queue == queue[m + 1..]
      && o.walk.isDiscontinuous == (discontinuous || m > 0)
  {
    var w := Walk(queue, 0, 0, 0, discontinuous, next);
    SkipsRejected(isEnabled, w, feed, verdicts, streamStart, m);
    assert queue[m..][0] == queue[m] && queue[m..][1..] == queue[m + 1..];
  }

  /** The eleventh broken packet in a row ends the request with its failure code. */
  lemma EleventhBrokenFails(isEnabled: bool, queue: seq<Packet>, discontinuous: bool, next: Option<int>, feed: seq<Read>,
                            verdicts: seq<Verdict>, streamStart: Option<int>)
    requires MAX_SKIPPED < |queue|
    requires Rejects(verdicts, 0, MAX_SKIPPED) && VerdictAt(verdicts, MAX_SKIPPED).Broken?
    ensures var o := Fetch(isEnabled, Walk(queue, 0, 0, 0, discontinuous, next), feed, verdicts, true, streamStart);
      o.result == Err(VerdictAt(verdicts, MAX_SKIPPED).hr) && o.walk.isDiscontinuous && o.walk.decoded == MAX_SKIPPED + 1
  {
    var w := Walk(queue, 0, 0, 0, discontinuous, next);
    SkipsRejected(isEnabled, w, feed, verdicts, streamStart, MAX_SKIPPED);
    assert queue[MAX_SKIPPED..] != [];
  }

  /** Without skipping, the first broken packet ends the request. */
  lemma NoSkipFailsOnBroken(isEnabled: bool, w: Walk, feed: seq<Read>, verdicts: seq<Verdict>, streamStart: Option<int>)
    requires w.used <= |feed| && w.queue != [] && VerdictAt(verdicts, w.decoded).Broken?
    ensures Fetch(isEnabled, w, feed, verdicts, false, streamStart).result == Err(VerdictAt(verdicts, w.decoded).hr)
  {
  }

  /**
   * With the base decoder (which completes every packet) a request delivers
   * the oldest queued packet, or the first one the reader hands over, with
   * the base decoder's timestamp, and changes nothing else.
   */
  lemma BaseDecoderDeliversFront(isEnabled: bool, w: Walk, feed: seq<Read>, streamStart: Option<int>)
    requires w.used <= |feed|
    ensures var o := Fetch(isEnabled, w, feed, [], false, streamStart);
      var n := PopNext(isEnabled, w, feed);
      && (o.result.Ok? <==> n.pkt.Some?)
      && (w.queue != [] ==> o.result.Ok? && o.result.value.pkt == w.queue[0] && o.walk.queue == w.queue[1..])
      && (o.result.Ok? ==> o.result.value.pts == Stamped(n.pkt.value, w.nextFramePts, streamStart).pts)
      && o.walk.isDiscontinuous == w.isDiscontinuous
  {
  }

  // ---------------------------------------------------------------------
  // Samples

  /** The fields of the provider that its methods change. */
  datatype ProviderState = ProviderState(
    isEnabled: bool,
    isDiscontinuous: bool,
    queue: seq<Packet>,
    nextFramePts: Option<int>)

  /** A media stream sample: buffer, timestamp and duration in 100 ns units, discontinuity flag. */
  datatype MediaSample = MediaSample(data: seq<Byte>, pts: int, duration: int, discontinuous: bool)

  /** Flush: the queue is emptied and the next sample is discontinuous. */
  function Flushed(s: ProviderState): (s': ProviderState)
    ensures s'.queue == [] && s'.isDiscontinuous
    ensures s'.isEnabled == s.isEnabled && s'.nextFramePts == s.nextFramePts
  {
    s.(queue := [], isDiscontinuous := true)
  }

  /** QueuePacket: the packet is appended while the stream is enabled and dropped otherwise. */
  function Queued(s: ProviderState, p: Packet): (s': ProviderState)
    ensures s'.isEnabled == s.isEnabled && s'.isDiscontinuous == s.isDiscontinuous && s'.nextFramePts == s.nextFramePts
    ensures s'.queue == if s.isEnabled then s.queue + [p] else s.queue
  {
    if s.isEnabled then s.(queue := s.queue + [p]) else s
  }

  /** DisableStream: flushed, and further packets are no longer queued. */
  function Disabled(s: ProviderState): (s': ProviderState)
    ensures s' == Flushed(s).(isEnabled := false)
  {
    Flushed(s).(isEnabled := false)
  }

  /** The request's loop state at the start of GetNextPacket. */
  function Start(s: ProviderState): Walk
  {
    Walk(s.queue, 0, 0, 0, s.isDiscontinuous, s.nextFramePts)
  }

  /** The fields after a request left loop state `w`. */
  function After(s: ProviderState, w: Walk): ProviderState
  {
    ProviderState(s.isEnabled, w.isDiscontinuous, w.queue, w.nextFramePts)
  }

  datatype SampleStep = SampleStep(sample: Option<MediaSample>, state: ProviderState, used: nat)

  /**
   * The WriteAVPacketToStream a provider has: the base one copies the
   * packet; the H.264 AVC provider's override writes the packet in
   * start-code form, after the SPS and PPS of its codec context on a key
   * frame, and fails when they or the packet's units overrun.
   */
  datatype PacketWriter = BaseWriter | H264AvcWriter(hasCodecContext: bool, extradata: Option<seq<Byte>>)

  /** WriteAVPacketToStream, as the provider's class defines it. */
  function WriteAvPacket(writer: PacketWriter, p: Packet): (w: H264Avc.Written)
    ensures writer == BaseWriter ==> w == H264Avc.Written(SOk, p.data)
    ensures w.hr == SOk || w.hr == EFail
  {
    match writer
      case BaseWriter => H264Avc.Written(SOk, p.data)
      case H264AvcWriter(hasCodecContext, extradata) =>
        H264Avc.AvPacketWriteResult(hasCodecContext, extradata, p.data, p.isKeyFrame);
        H264Avc.AvPacketWrite(hasCodecContext, extradata, p.data, p.isKeyFrame)
  }

  /** The HRESULT of GetNextPacket: the loop's failure, or else the write's. */
  function RequestResult(writer: PacketWriter, o: Fetched): HResult
  {
    if o.result.Ok? then WriteAvPacket(writer, o.result.value.pkt).hr else o.result.error
  }

  /** The written bytes, the timestamp relative to the start offset, and the duration, in 100 ns units. */
  function Emitted(data: seq<Byte>, f: Frame, tb: TimeBase, startOffset: int, discontinuous: bool): MediaSample
  {
    MediaSample(data, ToHns(tb, f.pts) - startOffset, ToHns(tb, f.duration), discontinuous)
  }

  /**
   * GetNextSample: nothing while disabled; otherwise a request with skipping
   * allowed. A frame whose packet is written becomes a sample carrying the
   * discontinuity flag, which is then cleared; any failure but the end of
   * the stream (a read, the decoder, or the write) disables the stream; at
   * the end of the stream it stays enabled.
   */
  function NextSample(s: ProviderState, writer: PacketWriter, feed: seq<Read>, verdicts: seq<Verdict>, streamStart: Option<int>,
                      tb: TimeBase, startOffset: int): (r: SampleStep)
    ensures !s.isEnabled ==> r == SampleStep(None, s, 0)
    ensures r.used <= |feed|
    ensures r.sample.Some? ==> s.isEnabled && r.state.isEnabled && !r.state.isDiscontinuous
    ensures s.isEnabled ==>
      var o := Fetch(true, Start(s), feed, verdicts, true, streamStart);
      var hr := RequestResult(writer, o);
      && (r.sample.Some? <==> hr == SOk)
      && (hr == SOk ==>
            r.sample.value == Emitted(WriteAvPacket(writer, o.result.value.pkt).bytes, o.result.value, tb, startOffset, o.walk.isDiscontinuous))
      && (hr != SOk && hr != MfEEndOfStream ==> r.state == Disabled(After(s, o.walk)))
      && (hr == MfEEndOfStream ==> r.state == After(s, o.walk))
  {
    if !s.isEnabled then SampleStep(None, s, 0)
    else
      var o := Fetch(true, Start(s), feed, verdicts, true, streamStart);
      var s' := After(s, o.walk);
      var hr := RequestResult(writer, o);
      if hr == SOk then
        var data := WriteAvPacket(writer, o.result.value.pkt).bytes;
        SampleStep(Some(Emitted(data, o.result.value, tb, startOffset, s'.isDiscontinuous)), s'.(isDiscontinuous := false), o.walk.used)
      else if hr != MfEEndOfStream then SampleStep(None, Disabled(s'), o.walk.used)
      else SampleStep(None, s', o.walk.used)
  }

  /**
   * A request that delivers a frame leaves the stream discontinuous exactly
   * when it was already, or when the decoder rejected a packet before the
   * one that gave the frame (more than one packet was decoded).
   */
  lemma {:induction false} FetchDiscontinuity(isEnabled: bool, w: Walk, feed: seq<Read>, verdicts: seq<Verdict>,
                                              allowSkip: bool, streamStart: Option<int>)
    requires w.used <= |feed|
    ensures var o := Fetch(isEnabled, w, feed, verdicts, allowSkip, streamStart);
      o.result.Ok? ==> (o.walk.isDiscontinuous <==> w.isDiscontinuous || o.walk.decoded > w.decoded + 1)
    decreases Remaining(w, feed)
  {
    match Round(isEnabled, w, feed, verdicts, allowSkip, streamStart)
    case Done(f) =>
    case Again(w') => FetchDiscontinuity(isEnabled, w', feed, verdicts, allowSkip, streamStart);
  }

  /**
   * A sample is marked discontinuous exactly when the stream was (after a
   * flush or a failed request) or when packets were skipped before it.
   */
  lemma NextSampleDiscontinuity(s: ProviderState, writer: PacketWriter, feed: seq<Read>, verdicts: seq<Verdict>,
                                streamStart: Option<int>, tb: TimeBase, startOffset: int)
    requires s.isEnabled
    ensures var r := NextSample(s, writer, feed, verdicts, streamStart, tb, startOffset);
      var o := Fetch(true, Start(s), feed, verdicts, true, streamStart);
      r.sample.Some? ==> (r.sample.value.discontinuous <==> s.isDiscontinuous || o.walk.decoded > 1)
  {
    FetchDiscontinuity(true, Start(s), feed, verdicts, true, streamStart);
  }

  /**
   * The first sample after a flush (a seek, the start) is marked
   * discontinuous; the one after it is marked discontinuous exactly when
   * packets were skipped before it.
   */
  lemma FirstSampleAfterFlushIsDiscontinuous(s: ProviderState, writer: PacketWriter, feed: seq<Read>, verdicts: seq<Verdict>,
                                              feed': seq<Read>, verdicts': seq<Verdict>, streamStart: Option<int>,
                                              tb: TimeBase, startOffset: int)
    requires s.isEnabled
    ensures var r := NextSample(Flushed(s), writer, feed, verdicts, streamStart, tb, startOffset);
      r.sample.Some? ==> r.sample.value.discontinuous
    ensures var r := NextSample(Flushed(s), writer, feed, verdicts, streamStart, tb, startOffset);
      var r' := NextSample(r.state, writer, feed', verdicts', streamStart, tb, startOffset);
      var o' := Fetch(true, Start(r.state), feed', verdicts', true, streamStart);
      r.sample.Some? && r'.sample.Some? ==> (r'.sample.value.discontinuous <==> o'.walk.decoded > 1)
  {
    NextSampleDiscontinuity(Flushed(s), writer, feed, verdicts, streamStart, tb, startOffset);
    var r := NextSample(Flushed(s), writer, feed, verdicts, streamStart, tb, startOffset);
    if r.sample.Some? {
      NextSampleDiscontinuity(r.state, writer, feed', verdicts', streamStart, tb, startOffset);
    }
  }

  /**
   * With a packet queued, the base decoder and the base writer,
   * GetNextSample delivers that packet's bytes and leaves the rest of the
   * queue.
   */
  lemma QueuedPacketIsNextSample(s: ProviderState, feed: seq<Read>, streamStart: Option<int>, tb: TimeBase, startOffset: int)
    requires s.isEnabled && s.queue != []
    ensures var r := NextSample(s, BaseWriter, feed, [], streamStart, tb, startOffset);
      && r.sample.Some? && r.sample.value.data == s.queue[0].data
      && r.sample.value.discontinuous == s.isDiscontinuous
      && r.state.queue == s.queue[1..] && r.used == 0
  {
    BaseDecoderDeliversFront(true, Start(s), feed, streamStart);
  }

  /**
   * With a packet queued, the base decoder and the H.264 AVC provider's
   * writer, GetNextSample delivers the packet as that provider writes it
   * (parameter sets first on a key frame, units behind start codes); when
   * the write fails there is no sample and the stream is disabled: its
   * queue is flushed and it queues no more packets.
   */
  lemma QueuedPacketWrittenByH264Avc(s: ProviderState, hasCodecContext: bool, extradata: Option<seq<Byte>>,
                                     feed: seq<Read>, streamStart: Option<int>, tb: TimeBase, startOffset: int)
    requires s.isEnabled && s.queue != []
    ensures var r := NextSample(s, H264AvcWriter(hasCodecContext, extradata), feed, [], streamStart, tb, startOffset);
      var w := H264Avc.AvPacketWrite(hasCodecContext, extradata, s.queue[0].data, s.queue[0].isKeyFrame);
      && (r.sample.Some? <==> w.hr == SOk)
      && (r.sample.Some? ==> r.sample.value.data == w.bytes && r.state.queue == s.queue[1..])
      && (r.sample.None? ==> !r.state.isEnabled && r.state.queue == [] && r.state.isDiscontinuous)
  {
    BaseDecoderDeliversFront(true, Start(s), feed, streamStart);
    H264Avc.AvPacketWriteResult(hasCodecContext, extradata, s.queue[0].data, s.queue[0].isKeyFrame);
  }

  /**
   * An empty packet that is not a key frame gives the H.264 AVC provider no
   * sample and disables its stream, where the base provider delivers it.
   */
  lemma EmptyPacketDisablesH264AvcStream(s: ProviderState, hasCodecContext: bool, extradata: Option<seq<Byte>>,
                                         feed: seq<Read>, streamStart: Option<int>, tb: TimeBase, startOffset: int)
    requires s.isEnabled && s.queue != [] && s.queue[0].data == [] && !s.queue[0].isKeyFrame
    ensures NextSample(s, H264AvcWriter(hasCodecContext, extradata), feed, [], streamStart, tb, startOffset).sample.None?
    ensures !NextSample(s, H264AvcWriter(hasCodecContext, extradata), feed, [], streamStart, tb, startOffset).state.isEnabled
    ensures NextSample(s, BaseWriter, feed, [], streamStart, tb, startOffset).sample.Some?
  {
    H264Avc.NalPacketEmpty();
    QueuedPacketWrittenByH264Avc(s, hasCodecContext, extradata, feed, streamStart, tb, startOffset);
    QueuedPacketIsNextSample(s, feed, streamStart, tb, startOffset);
  }

  /** SetCurrentStreamIndex: the index is kept when, cast to unsigned, it is below the stream count. */
  function CurrentStreamIndex(nbStreams: nat, streamIndex: int): (r: int)
    requires nbStreams < UINT32_MODULUS && -0x8000_0000 <= streamIndex < 0x8000_0000
    ensures r == streamIndex || r == AVERROR_STREAM_NOT_FOUND
  {
    if streamIndex % UINT32_MODULUS < nbStreams then streamIndex else AVERROR_STREAM_NOT_FOUND
  }

  /**
   * With fewer than 2^31 streams, the unsigned comparison keeps exactly the
   * indices of existing streams: a negative index wraps to a value of 2^31
   * or more.
   */
  lemma CurrentStreamIndexKeepsExisting(nbStreams: nat, streamIndex: int)
    requires nbStreams <= 0x8000_0000 && -0x8000_0000 <= streamIndex < 0x8000_0000
    ensures CurrentStreamIndex(nbStreams, streamIndex) == streamIndex <==> 0 <= streamIndex < nbStreams || streamIndex == AVERROR_STREAM_NOT_FOUND
    ensures 0 <= streamIndex < nbStreams ==> CurrentStreamIndex(nbStreams, streamIndex) == streamIndex
    ensures !(0 <= streamIndex < nbStreams) ==> CurrentStreamIndex(nbStreams, streamIndex) == AVERROR_STREAM_NOT_FOUND
  {
    if streamIndex < 0 {
      assert streamIndex % UINT32_MODULUS == streamIndex + UINT32_MODULUS;
    }
  }

  // ---------------------------------------------------------------------
  // The provider object

  class MediaSampleProvider {
    /** nb_streams of the format context. */
    const nbStreams: nat
    /** start_time of the stream, or none (AV_NOPTS_VALUE). */
    const streamStart: Option<int>
    /** time_base of the stream. */
    const timeBase: TimeBase
    /** The format's start time in 100 ns units, or 0. */
    const startOffset: int
    /** The WriteAVPacketToStream of the provider's class. */
    const writer: PacketWriter

    var streamIndex: int
    var isEnabled: bool
    var isDiscontinuous: bool
    var packetQueue: seq<Packet>
    var nextFramePts: Option<int>

    function State(): ProviderState
      reads this
    {
      ProviderState(isEnabled, isDiscontinuous, packetQueue, nextFramePts)
    }

    /**
     * A provider starts with no stream index, disabled, discontinuous and
     * with no frame timestamp; the start offset is the format's start time
     * (in AV_TIME_BASE microseconds) in 100 ns units, or 0.
     */
    constructor(formatStart: Option<int>, streamStart: Option<int>, timeBase: TimeBase, nbStreams: nat, writer: PacketWriter)
      ensures this.streamStart == streamStart && this.timeBase == timeBase && this.nbStreams == nbStreams
      ensures this.writer == writer
      ensures startOffset == if formatStart.Some? then formatStart.value * 10 else 0
      ensures streamIndex == AVERROR_STREAM_NOT_FOUND
      ensures State() == ProviderState(false, true, [], None)
    {
      this.streamStart := streamStart;
      this.timeBase := timeBase;
      this.nbStreams := nbStreams;
      this.writer := writer;
      startOffset := if formatStart.Some? then formatStart.value * HNS_PER_SEC / 1000000 else 0;
      streamIndex := AVERROR_STREAM_NOT_FOUND;
      isEnabled := false;
      isDiscontinuous := true;
      packetQueue := [];
      nextFramePts := None;
    }

    method SetCurrentStreamIndex(index: int)
      requires nbStreams < UINT32_MODULUS && -0x8000_0000 <= index < 0x8000_0000
      modifies this
      ensures streamIndex == CurrentStreamIndex(nbStreams, index)
      ensures State() == old(State())
    {
      if nbStreams > index % UINT32_MODULUS {
        streamIndex := index;
      } else {
        streamIndex := AVERROR_STREAM_NOT_FOUND;
      }
    }

    method QueuePacket(packet: Packet)
      modifies this
      ensures State() == Queued(old(State()), packet) && streamIndex == old(streamIndex)
    {
      if isEnabled {
        packetQueue := packetQueue + [packet];
      }
    }

    method Flush()
      modifies this
      ensures State() == Flushed(old(State())) && streamIndex == old(streamIndex)
    {
      packetQueue := [];
      isDiscontinuous := true;
    }

    method DisableStream()
      modifies this
      ensures State() == Disabled(old(State())) && streamIndex == old(streamIndex)
    {
      Flush();
      isEnabled := false;
    }

    method EnableStream()
      modifies this
      ensures State() == old(State()).(isEnabled := true) && streamIndex == old(streamIndex)
    {
      isEnabled := true;
    }

    /** The base DecodeAVPacket: timestamps of a complete frame, and the next frame's. */
    method DecodeAVPacket(packet: Packet) returns (framePts: int, frameDuration: int)
      modifies this
      ensures var s := Stamped(packet, old(nextFramePts), streamStart);
        framePts == s.pts && frameDuration == packet.duration && nextFramePts == Some(s.next)
      ensures isEnabled == old(isEnabled) && isDiscontinuous == old(isDiscontinuous)
      ensures packetQueue == old(packetQueue) && streamIndex == old(streamIndex)
    {
      frameDuration := packet.duration;
      if packet.pts.Some? {
        framePts := packet.pts.value;
        nextFramePts := Some(framePts + frameDuration);
      } else {
        if nextFramePts.None? {
          nextFramePts := Some(if streamStart.Some? then streamStart.value else 0);
        }
        framePts := nextFramePts.value;
        nextFramePts := Some(nextFramePts.value + frameDuration);
      }
    }

    /** The inner loop of GetNextPacket: read until this provider's queue holds a packet. */
    method FillQueue(feed: seq<Read>, from: nat) returns (hr: HResult, used: nat)
      requires packetQueue == [] && from <= |feed|
      modifies this
      ensures var r := ReadUntilQueued(old(isEnabled), feed, from);
        hr == r.hr && used == r.used && packetQueue == (if r.pkt.Some? then [r.pkt.value] else [])
      ensures isEnabled == old(isEnabled) && isDiscontinuous == old(isDiscontinuous)
      ensures nextFramePts == old(nextFramePts) && streamIndex == old(streamIndex)
    {
      ghost var goal := ReadUntilQueued(isEnabled, feed, from);
      used := from;
      hr := SOk;
      while packetQueue == []
        invariant from <= used <= |feed|
        invariant isEnabled == old(isEnabled) && isDiscontinuous == old(isDiscontinuous)
        invariant nextFramePts == old(nextFramePts) && streamIndex == old(streamIndex)
        invariant packetQueue == [] ==> goal == ReadUntilQueued(isEnabled, feed, used)
        invariant packetQueue != [] ==> goal == Refill(SOk, Some(packetQueue[0]), used) && |packetQueue| == 1 && hr == SOk
        decreases |feed| - used
      {
        if used == |feed| {
          hr := MfEEndOfStream;
          return;
        }
        var r := feed[used];
        used := used + 1;
        match r {
          case Delivered(p) =>
            QueuePacket(p);
          case OtherStream =>
          case ReadError(code) =>
            hr := if code == AVERROR_EOF then MfEEndOfStream else EFail;
            return;
        }
      }
    }

    /** The loop state of a request, from the fields and the loop's locals. */
    function Current(used: nat, decoded: nat, errorCount: nat): Walk
      reads this
    {
      Walk(packetQueue, used, decoded, errorCount, isDiscontinuous, nextFramePts)
    }

    /** The round's outcome, from the loop's locals and the fields. */
    function Outcome(hr: HResult, complete: bool, packet: Packet, framePts: int, frameDuration: int,
                     used: nat, decoded: nat, errorCount: nat): Turn
      reads this
    {
      if hr != SOk then Done(Fetched(Err(hr), Current(used, decoded, errorCount)))
      else if complete then Done(Fetched(Ok(Frame(packet, framePts, frameDuration)), Current(used, decoded, errorCount)))
      else Again(Current(used, decoded, errorCount))
    }

    /** One round of the outer loop of GetNextPacket. */
    method PlayRound(feed: seq<Read>, verdicts: seq<Verdict>, allowSkip: bool, used0: nat, decoded0: nat, errorCount0: nat)
      returns (hr: HResult, complete: bool, packet: Packet, framePts: int, frameDuration: int,
               used: nat, decoded: nat, errorCount: nat)
      requires used0 <= |feed|
      modifies this
      ensures Outcome(hr, complete, packet, framePts, frameDuration, used, decoded, errorCount)
           == Round(old(isEnabled), old(Current(used0, decoded0, errorCount0)), feed, verdicts, allowSkip, streamStart)
      ensures hr == SOk || !complete
      ensures isEnabled == old(isEnabled) && streamIndex == old(streamIndex)
    {
      hr, complete := SOk, false;
      packet, framePts, frameDuration := Packet([], None, 0, false, 0, -1), 0, 0;
      used, decoded, errorCount := used0, decoded0, errorCount0;
      if packetQueue == [] {
        hr, used := FillQueue(feed, used0);
      }
      if packetQueue != [] {
        packet := packetQueue[0];
        packetQueue := packetQueue[1..];
        var verdict := VerdictAt(verdicts, decoded);
        decoded := decoded + 1;
        if verdict == Complete {
          framePts, frameDuration := DecodeAVPacket(packet);
          complete := true;
        } else {
          isDiscontinuous := true;
          var skip := allowSkip && errorCount < MAX_SKIPPED;
          if allowSkip {
            errorCount := errorCount + 1;
          }
          if verdict.Broken? && !skip {
            hr := verdict.hr;
          }
        }
      }
    }

    /**
     * GetNextPacket: pops and decodes packets until a frame is complete or a
     * read or a decode fails, then returns the packet's bytes, timestamp and
     * duration.
     */
    method GetNextPacket(feed: seq<Read>, verdicts: seq<Verdict>, allowSkip: bool)
      returns (hr: HResult, data: seq<Byte>, pts: int, dur: int, used: nat)
      modifies this
      ensures var o := Fetch(old(isEnabled), Start(old(State())), feed, verdicts, allowSkip, streamStart);
        && State() == After(old(State()), o.walk) && used == o.walk.used
        && hr == RequestResult(writer, o)
        && (o.result.Ok? ==> var m := Emitted(WriteAvPacket(writer, o.result.value.pkt).bytes, o.result.value, timeBase, startOffset, false);
              data == m.data && pts == m.pts && dur == m.duration)
      ensures streamIndex == old(streamIndex)
    {
      ghost var goal := Fetch(isEnabled, Start(State()), feed, verdicts, allowSkip, streamStart);
      var decoded: nat, errorCount: nat := 0, 0;
      var complete := false;
      var packet: Packet, framePts: int, frameDuration: int := Packet([], None, 0, false, 0, -1), 0, 0;
      used, hr := 0, SOk;
      while hr == SOk && !complete
        invariant used <= |feed| && (hr == SOk || !complete)
        invariant isEnabled == old(isEnabled) && streamIndex == old(streamIndex)
        invariant goal == Settle(isEnabled, Outcome(hr, complete, packet, framePts, frameDuration, used, decoded, errorCount),
                                 feed, verdicts, allowSkip, streamStart)
        decreases |feed| - used + |packetQueue|, if hr == SOk && !complete then 1 else 0
      {
        hr, complete, packet, framePts, frameDuration, used, decoded, errorCount :=
          PlayRound(feed, verdicts, allowSkip, used, decoded, errorCount);
      }
      data, pts, dur := [], 0, 0;
      if hr == SOk {
        var w := WriteAvPacket(writer, packet);
        hr, data := w.hr, w.bytes;
        pts := ToHns(timeBase, framePts) - startOffset;
        dur := ToHns(timeBase, frameDuration);
      }
    }

    /** GetNextSample: a sample while enabled, or nothing; see NextSample. */
    method GetNextSample(feed: seq<Read>, verdicts: seq<Verdict>) returns (sample: Option<MediaSample>, used: nat)
      modifies this
      ensures SampleStep(sample, State(), used) == NextSample(old(State()), writer, feed, verdicts, streamStart, timeBase, startOffset)
      ensures streamIndex == old(streamIndex)
    {
      sample, used := None, 0;
      if isEnabled {
        var hr, data, pts, dur;
        hr, data, pts, dur, used := GetNextPacket(feed, verdicts, true);
        if hr == SOk {
          sample := Some(MediaSample(data, pts, dur, isDiscontinuous));
          isDiscontinuous := false;
        } else if hr != MfEEndOfStream {
          DisableStream();
        }
      }
    }
  }
}
