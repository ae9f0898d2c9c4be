// SampleProvider: the per-stream state of the newer media stream source.
// A provider is selected or not; it queues the packets the reader hands it
// while selected; a sample request pops the oldest packet, reading more
// from the file while the queue is empty. A packet without a timestamp is
// placed where the previous sample ended, and the first sample after a
// flush (a seek, a deselect, the start) is marked discontinuous.
//
// The reader is not part of this model: each read it performs during a
// request is given as an input that either hands this provider a packet,
// hands a packet to some other stream, or throws an HRESULT. After the last
// given read the file is at its end and a read throws MF_E_END_OF_STREAM.

module SampleProviding {
  import opened Common

  /** What one read of the reader does, as far as this provider sees it. */
  datatype Delivery = Delivered(pkt: Packet) | OtherStream | ReadThrew(hr: HResult)

  /** A media stream sample: its buffer, timestamp and duration in 100 ns units, and the discontinuity flag. */
  datatype Sample = Sample(data: seq<Byte>, pts: int, duration: int, discontinuous: bool)

  /** The provider's fields that its methods change. */
  datatype ProviderState = ProviderState(isSelected: bool, isDiscontinuous: bool, queue: seq<Packet>, nextSamplePts: int)

  /** The stream's start time, or 0 when it has none. */
  function StartTime(startTime: Option<int>): int
  {
    if startTime.Some? then startTime.value else 0
  }

  /** Flush: the queue is emptied and the next sample is discontinuous. */
  function Flushed(s: ProviderState): (s': ProviderState)
    ensures s'.queue == [] && s'.isDiscontinuous
    ensures s'.isSelected == s.isSelected && s'.nextSamplePts == s.nextSamplePts
  {
    s.(queue := [], isDiscontinuous := true)
  }

  /** QueuePacket: appended while the stream is selected, ignored otherwise. */
  function Enqueued(s: ProviderState, p: Packet): (s': ProviderState)
    ensures s.isSelected ==> s'.queue == s.queue + [p]
    ensures !s.isSelected ==> s' == s
    ensures s'.isSelected == s.isSelected && s'.isDiscontinuous == s.isDiscontinuous && s'.nextSamplePts == s.nextSamplePts
  {
    if s.isSelected then s.(queue := s.queue + [p]) else s
  }

  /** What GetPacket ends with: the packet or the exception, the queue left, and how many reads it made. */
  datatype Fetch = Fetch(result: Result<Packet>, queue: seq<Packet>, used: nat)

  /**
   * GetPacket of a selected provider: the oldest queued packet without
   * reading; otherwise reads until one is handed to this provider, which is
   * then the packet returned. A read that throws ends it.
   */
  function FetchPacket(queue: seq<Packet>, deliveries: seq<Delivery>): (f: Fetch)
    ensures f.used <= |deliveries|
    ensures queue != [] ==> f.used == 0 && f.result == Ok(queue[0]) && f.queue == queue[1..]
    ensures queue == [] ==> f.queue == []
    ensures queue == [] && f.result.Ok? ==>
              && f.used >= 1 && deliveries[f.used - 1] == Delivered(f.result.value)
              && forall i :: 0 <= i < f.used - 1 ==> deliveries[i] == OtherStream
    ensures queue == [] && f.result.Err? ==>
              if f.used == |deliveries| && (f.used == 0 || !deliveries[f.used - 1].ReadThrew?) then f.result.error == MfEEndOfStream
              else f.used >= 1 && deliveries[f.used - 1] == ReadThrew(f.result.error)
    decreases |deliveries|
  {
    if queue != [] then Fetch(Ok(queue[0]), queue[1..], 0)
    else if deliveries == [] then Fetch(Err(MfEEndOfStream), [], 0)
    else match deliveries[0]
      case ReadThrew(hr) => Fetch(Err(hr), [], 1)
      case Delivered(p) => Fetch(Ok(p), [], 1)
      case OtherStream =>
        var f := FetchPacket([], deliveries[1..]);
        Fetch(f.result, f.queue, f.used + 1)
  }

  /** The timestamp a sample gets: its packet's, or where the previous sample ended. */
  function SamplePts(p: Packet, nextSamplePts: int): int
  {
    if p.pts.Some? then p.pts.value else nextSamplePts
  }

  /** What a sample request ends with: the sample or the exception, the new state, the reads made. */
  datatype SampleOutcome = SampleOutcome(result: Result<Sample>, state: ProviderState, used: nat)

  /**
   * GetSample: refused with MF_E_INVALIDREQUEST unless selected; otherwise
   * the fetched packet becomes a sample whose timestamp, relative to the
   * start offset, and duration are converted to 100 ns units; the next
   * expected timestamp moves to its end and the discontinuity flag it
   * carried is cleared.
   */
  function GetSampleOf(s: ProviderState, startOffset: int, tb: TimeBase, deliveries: seq<Delivery>): (o: SampleOutcome)
    ensures !s.isSelected ==> o == SampleOutcome(Err(MfEInvalidRequest), s, 0)
    ensures o.result.Ok? ==> o.result.value.discontinuous == s.isDiscontinuous && !o.state.isDiscontinuous
    ensures o.result.Err? ==> o.state.isDiscontinuous == s.isDiscontinuous && o.state.nextSamplePts == s.nextSamplePts
    ensures o.state.isSelected == s.isSelected && o.used <= |deliveries|
  {
    if !s.isSelected then SampleOutcome(Err(MfEInvalidRequest), s, 0)
    else
      var f := FetchPacket(s.queue, deliveries);
      match f.result
        case Err(e) => SampleOutcome(Err(e), s.(queue := f.queue), f.used)
        case Ok(p) =>
          var pts := SamplePts(p, s.nextSamplePts);
          SampleOutcome(Ok(Sample(p.data, ToHns(tb, pts - startOffset), ToHns(tb, p.duration), s.isDiscontinuous)),
                        s.(queue := f.queue, nextSamplePts := pts + p.duration, isDiscontinuous := false),
                        f.used)
  }

  // ---------------------------------------------------------------------
  // The timeline of samples served from the queue

  /** The timestamps, in the stream's time base, that a run of packets gets. */
  function Timeline(next: int, pkts: seq<Packet>): (ts: seq<int>)
    ensures |ts| == |pkts|
    decreases |pkts|
  {
    if pkts == [] then []
    else
      var t := SamplePts(pkts[0], next);
      [t] + Timeline(t + pkts[0].duration, pkts[1..])
  }

  function TotalDuration(pkts: seq<Packet>): int
  {
    if pkts == [] then 0 else pkts[0].duration + TotalDuration(pkts[1..])
  }

  predicate NoTimestamps(pkts: seq<Packet>)
  {
    forall i :: 0 <= i < |pkts| ==> pkts[i].pts.None?
  }

  /**
   * Packets without timestamps are laid end to end: each starts where the
   * durations before it end.
   */
  lemma {:induction false} TimelineBackFill(next: int, pkts: seq<Packet>, i: nat)
    requires NoTimestamps(pkts) && i < |pkts|
    ensures Timeline(next, pkts)[i] == next + TotalDuration(pkts[..i])
    decreases i
  {
    if i > 0 {
      var rest := pkts[1..];
      assert NoTimestamps(rest) by {
        forall j | 0 <= j < |rest| ensures rest[j].pts.None? { assert rest[j] == pkts[j + 1]; }
      }
      TimelineBackFill(next + pkts[0].duration, rest, i - 1);
      assert pkts[..i][1..] == rest[..i - 1];
    } else {
      assert pkts[..0] == [];
    }
  }

  /** A packet with a timestamp restarts the timeline there, whatever came before. */
  lemma TimelineResync(next: int, next': int, pkts: seq<Packet>)
    requires pkts != [] && pkts[0].pts.Some?
    ensures Timeline(next, pkts) == Timeline(next', pkts)
  {
  }

  /** The samples of n requests served from the queue, with no reads. */
  function Drain(s: ProviderState, startOffset: int, tb: TimeBase, n: nat): seq<Sample>
    requires s.isSelected && n <= |s.queue|
    decreases n
  {
    if n == 0 then []
    else
      var o := GetSampleOf(s, startOffset, tb, []);
      [o.result.value] + Drain(o.state, startOffset, tb, n - 1)
  }

  /**
   * Requests served from the queue get the queued packets in order, timed
   * by the timeline that starts at the next expected timestamp; only the
   * first of them can be discontinuous.
   */
  lemma {:induction false} DrainFollowsTimeline(s: ProviderState, startOffset: int, tb: TimeBase, n: nat, i: nat)
    requires s.isSelected && i < n <= |s.queue|
    ensures |Drain(s, startOffset, tb, n)| == n
    ensures Drain(s, startOffset, tb, n)[i].data == s.queue[i].data
    ensures Drain(s, startOffset, tb, n)[i].pts == ToHns(tb, Timeline(s.nextSamplePts, s.queue[..n])[i] - startOffset)
    ensures Drain(s, startOffset, tb, n)[i].duration == ToHns(tb, s.queue[i].duration)
    ensures Drain(s, startOffset, tb, n)[i].discontinuous == (i == 0 && s.isDiscontinuous)
    decreases n
  {
    var o := GetSampleOf(s, startOffset, tb, []);
    var s' := o.state;
    assert s'.queue == s.queue[1..];
    assert s.queue[..n][1..] == s'.queue[..n - 1];
    DrainLength(s', startOffset, tb, n - 1);
    if i > 0 {
      DrainFollowsTimeline(s', startOffset, tb, n - 1, i - 1);
    }
  }

  lemma {:induction false} DrainLength(s: ProviderState, startOffset: int, tb: TimeBase, n: nat)
    requires s.isSelected && n <= |s.queue|
    ensures |Drain(s, startOffset, tb, n)| == n
    decreases n
  {
    if n > 0 {
      DrainLength(GetSampleOf(s, startOffset, tb, []).state, startOffset, tb, n - 1);
    }
  }

  // ---------------------------------------------------------------------
  // The provider

  class SampleProvider {
    const startOffset: int
    const timeBase: TimeBase
    var isSelected: bool
    var isDiscontinuous: bool
    var packetQueue: seq<Packet>
    var nextSamplePts: int

    function State(): ProviderState
      reads this
    {
      ProviderState(isSelected, isDiscontinuous, packetQueue, nextSamplePts)
    }

    /** The start offset and the first expected timestamp are the stream's start time, or 0. */
    constructor (startTime: Option<int>, timeBase: TimeBase)
      ensures startOffset == StartTime(startTime) && this.timeBase == timeBase
      ensures State() == ProviderState(false, true, [], StartTime(startTime))
    {
      if startTime.Some? {
        startOffset := startTime.value;
        nextSamplePts := startTime.value;
      } else {
        startOffset := 0;
        nextSamplePts := 0;
      }
      this.timeBase := timeBase;
      isSelected := false;
      isDiscontinuous := true;
      packetQueue := [];
    }

    /** Select: only an unselected stream is selected. */
    method Select()
      requires !isSelected
      modifies this
      ensures State() == old(State()).(isSelected := true)
    {
      isSelected := true;
    }

    /** Deselect: only a selected stream; it is flushed as well. */
    method Deselect()
      requires isSelected
      modifies this
      ensures State() == Flushed(old(State()).(isSelected := false))
    {
      isSelected := false;
      Flush();
    }

    /** OnSeek: the next expected timestamp is the seek time, and the stream is flushed. */
    method OnSeek(seekTime: int)
      modifies this
      ensures State() == Flushed(old(State()).(nextSamplePts := seekTime))
    {
      nextSamplePts := seekTime;
      Flush();
    }

    method Flush()
      modifies this
      ensures State() == Flushed(old(State()))
    {
      packetQueue := [];
      isDiscontinuous := true;
    }

    method QueuePacket(packet: Packet)
      modifies this
      ensures State() == Enqueued(old(State()), packet)
    {
      if isSelected {
        packetQueue := packetQueue + [packet];
      }
    }

    /** GetPacket: reads while the queue is empty, then pops its front. */
    method GetPacket(deliveries: seq<Delivery>) returns (r: Result<Packet>, used: nat)
      requires isSelected
      modifies this
      ensures Fetch(r, packetQueue, used) == FetchPacket(old(packetQueue), deliveries)
      ensures State() == old(State()).(queue := packetQueue)
    {
      used := 0;
      while packetQueue == []
        invariant isSelected && used <= |deliveries| && old(State()).(queue := packetQueue) == State()
        invariant FetchPacket(old(packetQueue), deliveries) == Prior(used, FetchPacket(packetQueue, deliveries[used..]))
        decreases |deliveries| - used, |packetQueue|
      {
        if used == |deliveries| {
          return Err(MfEEndOfStream), used;
        }
        var d := deliveries[used];
        used := used + 1;
        match d {
          case ReadThrew(hr) =>
            return Err(hr), used;
          case OtherStream =>
          case Delivered(p) =>
            QueuePacket(p);
        }
      }
      r := Ok(packetQueue[0]);
      packetQueue := packetQueue[1..];
    }

    /** GetSample, with the sample data of the base provider: the packet's own bytes. */
    method GetSample(deliveries: seq<Delivery>) returns (r: Result<Sample>, used: nat)
      modifies this
      ensures SampleOutcome(r, State(), used) == GetSampleOf(old(State()), startOffset, timeBase, deliveries)
    {
      if !isSelected {
        return Err(MfEInvalidRequest), 0;
      }
      var fetched;
      fetched, used := GetPacket(deliveries);
      if fetched.Err? {
        return Err(fetched.error), used;
      }
      var packet := fetched.value;
      var pts := if packet.pts.Some? then packet.pts.value else nextSamplePts;
      nextSamplePts := pts + packet.duration;
      r := Ok(Sample(packet.data, ToHns(timeBase, pts - startOffset), ToHns(timeBase, packet.duration), isDiscontinuous));
      isDiscontinuous := false;
    }
  }

  /** A fetch that happened after `used` reads. */
  function Prior(used: nat, f: Fetch): Fetch
  {
    Fetch(f.result, f.queue, f.used + used)
  }
}
