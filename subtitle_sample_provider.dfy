// The subtitle provider of the newer library build. Subtitle packets are
// sparse, so a sample request that finds no queued packet is not answered
// by reading ahead: the request is deferred and completed by the next packet
// the reader queues for this stream. Only one request may be outstanding; a
// flush (deselect, seek) drops it along with the queue.
//
// A request is identified by a number; the sample it is completed with is
// reported by the method that completes it.

module SubtitleSampling {
  import opened Common
  import opened SampleProviding

  /** The provider's state: the base provider's, and the deferred request if any. */
  datatype SubtitleState = SubtitleState(provider: ProviderState, pending: Option<nat>)

  /** What happens to a deferred request when a packet is queued. */
  datatype Completion =
    | NoRequest                                // nothing was outstanding
    | Answered(request: nat, sample: Sample)   // the request was completed with this sample
    | Threw(hr: HResult)                       // the base request threw; the request stays outstanding

  /** Flush: the base flush, and any outstanding request is dropped. */
  function SubtitleFlushed(t: SubtitleState): (t': SubtitleState)
    ensures t'.pending == None && t'.provider == Flushed(t.provider)
  {
    SubtitleState(Flushed(t.provider), None)
  }

  /**
   * QueuePacket: the base enqueue; then an outstanding request is served by
   * the base request (which finds the packet just queued when the stream is
   * selected) and is no longer outstanding, unless that request throws.
   */
  function PacketQueued(t: SubtitleState, p: Packet, startOffset: int, tb: TimeBase): (o: (Completion, SubtitleState))
    ensures t.pending.None? ==> o == (NoRequest, SubtitleState(Enqueued(t.provider, p), None))
    ensures o.0.Answered? ==> t.pending == Some(o.0.request) && o.1.pending == None
    ensures o.0.Threw? ==> o.1.pending == t.pending && o.0.hr != SOk
  {
    var s := Enqueued(t.provider, p);
    if t.pending.None? then (NoRequest, SubtitleState(s, None))
    else
      var g := GetSampleOf(s, startOffset, tb, []);
      match g.result
        case Ok(sample) => (Answered(t.pending.value, sample), SubtitleState(g.state, None))
        case Err(e) =>
          assert e != SOk by { FetchPacketErrNotOk(s.queue); }
          (Threw(e), SubtitleState(g.state, t.pending))
  }

  /**
   * GetSample: with a packet queued the base request answers at once;
   * otherwise the request is deferred.
   */
  function SampleRequested(t: SubtitleState, request: nat, startOffset: int, tb: TimeBase): (o: (Option<Result<Sample>>, SubtitleState))
    ensures t.provider.queue == [] <==> o.0.None?
    ensures o.0.None? ==> o.1 == SubtitleState(t.provider, Some(request))
    ensures o.0.Some? ==> o.1.pending == t.pending
  {
    if t.provider.queue != [] then
      var g := GetSampleOf(t.provider, startOffset, tb, []);
      (Some(g.result), SubtitleState(g.state, t.pending))
    else (None, SubtitleState(t.provider, Some(request)))
  }

  /** A fetch from an empty queue with no reads ends the stream; it never reports success as an error. */
  lemma FetchPacketErrNotOk(queue: seq<Packet>)
    ensures FetchPacket(queue, []).result.Err? ==> FetchPacket(queue, []).result.error == MfEEndOfStream
  {
  }

  /**
   * A request made while nothing is queued is deferred, and the next packet
   * queued completes exactly that request with the sample made from that
   * packet, leaving nothing queued and nothing outstanding.
   */
  lemma DeferredRequestTakesNextPacket(s: ProviderState, request: nat, p: Packet, startOffset: int, tb: TimeBase)
    requires s.isSelected && s.queue == []
    ensures var (answer, t) := SampleRequested(SubtitleState(s, None), request, startOffset, tb);
      && answer.None?
      && var (c, t') := PacketQueued(t, p, startOffset, tb);
      && c.Answered? && c.request == request
      && c.sample.data == p.data && c.sample.discontinuous == s.isDiscontinuous
      && c.sample.pts == ToHns(tb, SamplePts(p, s.nextSamplePts) - startOffset)
      && t'.pending == None && t'.provider.queue == []
  {
    var s' := Enqueued(s, p);
    assert s'.queue == [p];
    assert FetchPacket(s'.queue, []).result == Ok(p);
    assert s'.queue[1..] == [];
  }

  /** A request made while a packet is queued is answered at once with the base request's sample, using no read. */
  lemma QueuedPacketServedAtOnce(t: SubtitleState, request: nat, startOffset: int, tb: TimeBase)
    requires t.provider.isSelected && t.provider.queue != []
    ensures var (answer, t') := SampleRequested(t, request, startOffset, tb);
      var g := GetSampleOf(t.provider, startOffset, tb, []);
      && answer == Some(g.result) && answer.value.Ok?
      && answer.value.value.data == t.provider.queue[0].data
      && t'.provider.queue == t.provider.queue[1..]
  {
  }

  /** On a selected stream, queuing a packet always leaves no request outstanding. */
  lemma QueuedPacketClearsRequest(t: SubtitleState, p: Packet, startOffset: int, tb: TimeBase)
    requires t.provider.isSelected
    ensures PacketQueued(t, p, startOffset, tb).1.pending == None
    ensures !PacketQueued(t, p, startOffset, tb).0.Threw?
  {
    var s := Enqueued(t.provider, p);
    assert s.queue != [] && s.queue[0] == (t.provider.queue + [p])[0];
  }

  class SubtitleSampleProvider {
    const base: SampleProvider
    /** m_sampleRequest together with m_sampleRequestDeferral. */
    var pending: Option<nat>

    function State(): SubtitleState
      reads this, base
    {
      SubtitleState(base.State(), pending)
    }

    constructor (startTime: Option<int>, timeBase: TimeBase)
      ensures fresh(base) && base.startOffset == StartTime(startTime) && base.timeBase == timeBase
      ensures State() == SubtitleState(ProviderState(false, true, [], StartTime(startTime)), None)
    {
      base := new SampleProvider(startTime, timeBase);
      pending := None;
    }

    method Flush()
      modifies this, base
      ensures State() == SubtitleFlushed(old(State()))
    {
      base.Flush();
      pending := None;
    }

    /** Deselect flushes through the subtitle flush, so an outstanding request is dropped too. */
    method Deselect()
      requires base.isSelected
      modifies this, base
      ensures State() == SubtitleFlushed(old(State()).(provider := old(base.State()).(isSelected := false)))
    {
      base.isSelected := false;
      Flush();
    }

    /** OnSeek flushes through the subtitle flush as well. */
    method OnSeek(seekTime: int)
      modifies this, base
      ensures State() == SubtitleFlushed(old(State()).(provider := old(base.State()).(nextSamplePts := seekTime)))
    {
      base.nextSamplePts := seekTime;
      Flush();
    }

    method QueuePacket(packet: Packet) returns (completion: Completion)
      modifies this, base
      ensures (completion, State()) == PacketQueued(old(State()), packet, base.startOffset, base.timeBase)
    {
      base.QueuePacket(packet);
      completion := NoRequest;
      if pending.Some? {
        var r, used := base.GetSample([]);
        if r.Err? {
          FetchPacketErrNotOk(old(base.State()).queue + [packet]);
          return Threw(r.error);
        }
        completion := Answered(pending.value, r.value);
        pending := None;
      }
    }

    /** GetSample: at most one request may be outstanding when it has to be deferred. */
    method GetSample(request: nat) returns (answer: Option<Result<Sample>>)
      requires base.packetQueue == [] ==> pending.None?
      modifies this, base
      ensures (answer, State()) == SampleRequested(old(State()), request, base.startOffset, base.timeBase)
    {
      if base.packetQueue != [] {
        var r, used := base.GetSample([]);
        answer := Some(r);
      } else {
        pending := Some(request);
        answer := None;
      }
    }
  }
}
