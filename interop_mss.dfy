// FFmpegInteropMSS of the newer library build: it opens a file, creates a
// sample provider for each stream it can play, selects the first audio and
// the first video stream, and answers the media stream source's events:
// starting (a seek), a sample request, a stream switch, and closing.
//
// FFmpeg's calls are represented by the values they return. The providers
// are kept by stream index, each with the factory's choice and the state
// of module SampleProviding; the stream descriptor of a stream is its index.

module InteropMss {
  import opened Common
  import opened SampleProviding
  import StreamFactory
  import Utility

  /** AV_TIME_BASE: FFmpeg's internal time unit is the microsecond. */
  const AV_TIME_BASE: int := 1000000

  /** A stream's codec_type, reduced to what InitFFmpegContext distinguishes. */
  datatype MediaType = AudioMedia | VideoMedia | SubtitleMedia | OtherMedia

  /** What InitFFmpegContext reads of a stream. */
  datatype StreamInfo = StreamInfo(
    kind: MediaType,
    attachedPic: bool,               // disposition == AV_DISPOSITION_ATTACHED_PIC
    codec: StreamFactory.Codec,
    params: StreamFactory.CodecParameters,
    startTime: Option<int>,          // the stream's start_time, in its time base
    timeBase: TimeBase)

  /** A provider of the stream maps: the factory's choice and the provider's state. */
  datatype Entry = Entry(choice: StreamFactory.Choice, state: ProviderState)

  // ---------------------------------------------------------------------
  // Opening: which streams get providers, and which are selected

  /**
   * The provider a stream gets, or None when it is skipped: cover art
   * (attached pictures), subtitle codecs the factory refuses, and streams
   * that are neither audio, video nor subtitles.
   */
  function StreamChoice(st: StreamInfo): (c: Option<StreamFactory.Choice>)
    ensures c.None? <==>
      || st.kind == OtherMedia
      || (st.kind == VideoMedia && st.attachedPic)
      || (st.kind == SubtitleMedia && StreamFactory.CreateSubtitleStream(st.codec).Err?)
  {
    match st.kind
      case AudioMedia => Some(StreamFactory.CreateAudioStream(st.codec, st.params, false))
      case VideoMedia => if st.attachedPic then None else Some(StreamFactory.CreateVideoStream(st.codec, st.params, false))
      case SubtitleMedia =>
        (match StreamFactory.CreateSubtitleStream(st.codec)
          case Ok(c) => Some(c)
          case Err(_) => None)
      case OtherMedia => None
  }

  /** A stream that counts as the audio (kind AudioMedia) or video (kind VideoMedia) stream to select. */
  predicate Selectable(st: StreamInfo, kind: MediaType)
  {
    st.kind == kind && kind != SubtitleMedia && kind != OtherMedia && !(kind == VideoMedia && st.attachedPic)
  }

  /** Some stream before index n is selectable as `kind`. */
  predicate HasKind(streams: seq<StreamInfo>, n: nat, kind: MediaType)
    requires n <= |streams|
  {
    exists j :: 0 <= j < n && Selectable(streams[j], kind)
  }

  /** Stream i is the first one selectable as `kind`. */
  predicate FirstOf(streams: seq<StreamInfo>, i: nat, kind: MediaType)
    requires i < |streams|
  {
    Selectable(streams[i], kind) && !HasKind(streams, i, kind)
  }

  /** A freshly created provider, selected or not. */
  function NewEntry(st: StreamInfo, c: StreamFactory.Choice, selected: bool): Entry
  {
    Entry(c, ProviderState(selected, true, [], StartTime(st.startTime)))
  }

  /** The providers InitFFmpegContext has created after looking at the first n streams. */
  function Catalog(streams: seq<StreamInfo>, n: nat): map<nat, Entry>
    requires n <= |streams|
  {
    if n == 0 then map[]
    else
      var st := streams[n - 1];
      match StreamChoice(st)
        case None => Catalog(streams, n - 1)
        case Some(c) =>
          var selected := (Selectable(st, AudioMedia) && !HasKind(streams, n - 1, AudioMedia))
                       || (Selectable(st, VideoMedia) && !HasKind(streams, n - 1, VideoMedia));
          Catalog(streams, n - 1)[n - 1 := NewEntry(st, c, selected)]
  }

  /** Every stream the factory accepts has a provider with the factory's choice, and no other stream has one. */
  lemma {:induction false} CatalogMembers(streams: seq<StreamInfo>, n: nat, i: nat)
    requires n <= |streams|
    ensures i in Catalog(streams, n) <==> i < n && StreamChoice(streams[i]).Some?
    ensures i in Catalog(streams, n) ==> Catalog(streams, n)[i].choice == StreamChoice(streams[i]).value
    decreases n
  {
    if n > 0 {
      CatalogMembers(streams, n - 1, i);
    }
  }

  /** The catalog after n streams keeps what it had after n - 1 for every earlier stream. */
  lemma CatalogKeepsEarlier(streams: seq<StreamInfo>, n: nat, i: nat)
    requires 0 < n <= |streams| && i < n - 1
    ensures i in Catalog(streams, n) <==> i in Catalog(streams, n - 1)
    ensures i in Catalog(streams, n) ==> Catalog(streams, n)[i] == Catalog(streams, n - 1)[i]
  {
  }

  /** The entry a stream gets when it is looked at: selected iff it is the first of its kind so far. */
  lemma CatalogNewest(streams: seq<StreamInfo>, n: nat)
    requires 0 < n <= |streams| && n - 1 in Catalog(streams, n)
    ensures StreamChoice(streams[n - 1]).Some?
    ensures Catalog(streams, n)[n - 1] ==
      NewEntry(streams[n - 1], StreamChoice(streams[n - 1]).value, FirstOf(streams, n - 1, AudioMedia) || FirstOf(streams, n - 1, VideoMedia))
  {
    CatalogMembers(streams, n, n - 1);
  }

  /** The entry of stream i is the one created when i was looked at, selected iff i is the first of its kind. */
  lemma {:induction false} CatalogEntry(streams: seq<StreamInfo>, n: nat, i: nat)
    requires n <= |streams| && i in Catalog(streams, n)
    ensures i < n && StreamChoice(streams[i]).Some?
    ensures Catalog(streams, n)[i] ==
      NewEntry(streams[i], StreamChoice(streams[i]).value, FirstOf(streams, i, AudioMedia) || FirstOf(streams, i, VideoMedia))
    decreases n
  {
    CatalogMembers(streams, n, i);
    if i < n - 1 {
      CatalogKeepsEarlier(streams, n, i);
      CatalogEntry(streams, n - 1, i);
    } else {
      CatalogNewest(streams, n);
    }
  }

  /**
   * A provider is selected exactly when its stream is the first audio or
   * the first (non cover art) video stream; every provider starts flushed
   * at its stream's start time.
   */
  lemma CatalogContents(streams: seq<StreamInfo>, n: nat, i: nat)
    requires n <= |streams| && i in Catalog(streams, n)
    ensures i < n
    ensures Catalog(streams, n)[i].state.isSelected == (FirstOf(streams, i, AudioMedia) || FirstOf(streams, i, VideoMedia))
    ensures Catalog(streams, n)[i].state.queue == [] && Catalog(streams, n)[i].state.isDiscontinuous
    ensures Catalog(streams, n)[i].state.nextSamplePts == StartTime(streams[i].startTime)
  {
    CatalogEntry(streams, n, i);
  }

  /** At most one audio and one video stream start selected. */
  lemma OneSelectedPerKind(streams: seq<StreamInfo>, i: nat, j: nat, kind: MediaType)
    requires i < |streams| && j < |streams|
    requires i in Catalog(streams, |streams|) && j in Catalog(streams, |streams|)
    requires Catalog(streams, |streams|)[i].state.isSelected && Catalog(streams, |streams|)[j].state.isSelected
    requires streams[i].kind == kind && streams[j].kind == kind
    ensures i == j
  {
    CatalogContents(streams, |streams|, i);
    CatalogContents(streams, |streams|, j);
  }

  lemma HasKindStep(streams: seq<StreamInfo>, n: nat, kind: MediaType)
    requires n < |streams|
    ensures HasKind(streams, n + 1, kind) == (HasKind(streams, n, kind) || Selectable(streams[n], kind))
  {
    if Selectable(streams[n], kind) {
      assert 0 <= n < n + 1 && Selectable(streams[n], kind);
    }
    if HasKind(streams, n + 1, kind) && !Selectable(streams[n], kind) {
      var j :| 0 <= j < n + 1 && Selectable(streams[j], kind);
      assert j < n;
    }
  }

  // ---------------------------------------------------------------------
  // Starting

  /** What OnStarting does: resume, start at a position, or report an error to the media stream source. */
  datatype StartOutcome = Resumed | StartedAt(position: int) | StartFailed(hr: HResult)

  /**
   * The seek target in AV_TIME_BASE units: the start position (100 ns units)
   * converted, then moved by the file's start time when it has one.
   */
  function SeekTarget(mfSeekTime: int, formatStart: Option<int>): int
  {
    TruncDiv(mfSeekTime * AV_TIME_BASE, HNS_PER_SEC) + StartTime(formatStart)
  }

  /**
   * OnStarting: no start position means resume; a target past the file's
   * duration is refused with MF_E_INVALID_TIMESTAMP before any seek; a
   * failing avformat_seek_file reports its translated error; otherwise
   * playback starts at the requested position.
   */
  function Starting(startPosition: Option<int>, formatStart: Option<int>, formatDuration: int, seekResult: int): (o: StartOutcome)
    ensures startPosition.None? <==> o == Resumed
    ensures startPosition.Some? && SeekTarget(startPosition.value, formatStart) > formatDuration ==> o == StartFailed(MfEInvalidTimestamp)
    ensures o.StartedAt? ==>
      o.position == startPosition.value && seekResult >= 0 && SeekTarget(startPosition.value, formatStart) <= formatDuration
    ensures o.StartFailed? ==> o.hr != SOk
  {
    if startPosition.None? then Resumed
    else if SeekTarget(startPosition.value, formatStart) > formatDuration then StartFailed(MfEInvalidTimestamp)
    else if seekResult < 0 then StartFailed(Utility.AverrorToHresult(seekResult))
    else StartedAt(startPosition.value)
  }

  /**
   * As written, every provider gets OnSeek(target) with the target in
   * AV_TIME_BASE units: the target becomes its next expected timestamp, and
   * it is flushed.
   */
  function SeekAll(entries: map<nat, Entry>, target: int): (m: map<nat, Entry>)
    ensures m.Keys == entries.Keys
  {
    map k | k in entries :: entries[k].(state := Flushed(entries[k].state.(nextSamplePts := target)))
  }

  /**
   * As written, the seek target seeds the next expected timestamp in
   * microseconds while the provider reads it in its stream's time base: on
   * a stream counted in 1/90000 s, after a seek to 1 s the next packet
   * without a timestamp is placed at 1000000/90000 s, about 11.1 s.
   */
  lemma SeekSeedAsWrittenIsInWrongUnit(entries: map<nat, Entry>, k: nat)
    requires k in entries && entries[k].state.isSelected
    ensures var s := SeekAll(entries, SeekTarget(HNS_PER_SEC, None))[k].state;
      var p := Packet([], None, 0, true, k, 0);
      var o := GetSampleOf(Enqueued(s, p), 0, TimeBase(1, 90000), []);
      o.result.Ok? && o.result.value.pts == 111111111 && o.result.value.pts != HNS_PER_SEC
  {
    assert SeekTarget(HNS_PER_SEC, None) == 1000000;
    var s := SeekAll(entries, 1000000)[k].state;
    var p := Packet([], None, 0, true, k, 0);
    assert Enqueued(s, p).queue == [p];
  }

  /**
   * A target in AV_TIME_BASE units converted to the stream's time base, rounded
   * down. (av_rescale_q would round to nearest; the floor is what makes the
   * corrected seed never lie past the target.)
   */
  function Rescaled(target: int, tb: TimeBase): int
    requires tb.num > 0
  {
    target * tb.den / (tb.num * AV_TIME_BASE)
  }

  /**
   * The seek with the target rescaled to each stream's time base before it
   * seeds the next expected timestamp.
   */
  function SeekAllRescaled(entries: map<nat, Entry>, streams: seq<StreamInfo>, target: int): (m: map<nat, Entry>)
    requires forall k :: k in entries ==> k < |streams| && streams[k].timeBase.num > 0
    ensures m.Keys == entries.Keys
  {
    map k | k in entries ::
      entries[k].(state := Flushed(entries[k].state.(nextSamplePts := Rescaled(target, streams[k].timeBase))))
  }

  lemma ScaleTen(r: int, num: int)
    ensures r * num * HNS_PER_SEC == 10 * (r * (num * AV_TIME_BASE))
  {
  }

  /**
   * Rescaled, the seeded timestamp converted back never lies past the seek
   * target (in 100 ns units), and it is exactly the target when the target
   * is a whole number of the stream's ticks.
   */
  lemma RescaledSeedLandsAtTarget(target: nat, tb: TimeBase)
    requires tb.num > 0 && tb.den > 0
    ensures ToHns(tb, Rescaled(target, tb)) <= target * 10
    ensures (target * tb.den) % (tb.num * AV_TIME_BASE) == 0 ==> ToHns(tb, Rescaled(target, tb)) == target * 10
  {
    var n: nat := target * tb.den;
    var d := tb.num * AV_TIME_BASE;
    MulLe(1, tb.num, AV_TIME_BASE);
    var r := n / d;
    assert Rescaled(target, tb) == r;
    FloorMul(n, d);
    ScaleTen(r, tb.num);
    var x := r * tb.num * HNS_PER_SEC;
    assert ToHns(tb, r) == x / tb.den;
    var y := (10 * target) * tb.den;
    assert y == 10 * n;
    DivMonotone(x, y, tb.den);
    MulDivCancel(10 * target, tb.den);
  }

  /** Rescaled, the same seek to 1 s on a 1/90000 s stream places the next packet without a timestamp at 1 s. */
  lemma SeekSeedRescaledIsInStreamUnit(entries: map<nat, Entry>, streams: seq<StreamInfo>, k: nat)
    requires forall j :: j in entries ==> j < |streams| && streams[j].timeBase.num > 0
    requires k in entries && entries[k].state.isSelected && streams[k].timeBase == TimeBase(1, 90000)
    ensures var s := SeekAllRescaled(entries, streams, SeekTarget(HNS_PER_SEC, None))[k].state;
      var p := Packet([], None, 0, true, k, 0);
      var o := GetSampleOf(Enqueued(s, p), 0, TimeBase(1, 90000), []);
      o.result.Ok? && o.result.value.pts == HNS_PER_SEC
  {
    assert SeekTarget(HNS_PER_SEC, None) == 1000000;
    assert Rescaled(1000000, TimeBase(1, 90000)) == 90000;
    var s := SeekAllRescaled(entries, streams, 1000000)[k].state;
    var p := Packet([], None, 0, true, k, 0);
    assert Enqueued(s, p).queue == [p];
  }

  /** After a seek every provider is empty, discontinuous and expects the rescaled target next, with its selection kept. */
  lemma SeekFlushesEveryStream(entries: map<nat, Entry>, streams: seq<StreamInfo>, target: int, k: nat)
    requires forall j :: j in entries ==> j < |streams| && streams[j].timeBase.num > 0
    requires k in entries
    ensures var e := SeekAllRescaled(entries, streams, target)[k];
      && e.state.queue == [] && e.state.isDiscontinuous && e.state.nextSamplePts == Rescaled(target, streams[k].timeBase)
      && e.state.isSelected == entries[k].state.isSelected && e.choice == entries[k].choice
  {
  }

  // ---------------------------------------------------------------------
  // Sample requests

  /** What a sample request ends with, as the media stream source sees it. */
  datatype RequestOutcome = Answered(sample: Sample) | Unanswered | ErrorReported

  /** End of stream leaves the request unanswered without an error; any other failure is reported. */
  function Reported(r: Result<Sample>): (o: RequestOutcome)
    ensures r.Ok? <==> o.Answered?
    ensures o == Unanswered <==> r == Err(MfEEndOfStream)
  {
    match r
      case Ok(s) => Answered(s)
      case Err(e) => if e == MfEEndOfStream then Unanswered else ErrorReported
  }

  class FFmpegInteropMSS {
    const streams: seq<StreamInfo>
    const formatStart: Option<int>
    const formatDuration: int
    /** m_streamIdMap and m_streamDescriptorMap, keyed by stream index. */
    var entries: map<nat, Entry>
    /** What was set on the media stream source. */
    var duration: Option<int>
    var canSeek: bool
    var bufferTime: Option<int>
    /** How many times NotifyError was called. */
    var errorsNotified: nat
    var closed: bool

    /** Every provider belongs to a stream; FFmpeg gives every stream a time base with a positive numerator. */
    predicate Valid()
      reads this
    {
      && (forall i :: 0 <= i < |streams| ==> streams[i].timeBase.num > 0)
      && (forall k :: k in entries ==> k < |streams|)
    }

    /** The media stream source starts out with no provider, nothing set and no error. */
    constructor (streams: seq<StreamInfo>, formatStart: Option<int>, formatDuration: int)
      requires forall i :: 0 <= i < |streams| ==> streams[i].timeBase.num > 0
      ensures this.streams == streams && this.formatStart == formatStart && this.formatDuration == formatDuration
      ensures entries == map[] && duration == None && !canSeek && bufferTime == None
      ensures errorsNotified == 0 && !closed && Valid()
    {
      this.streams := streams;
      this.formatStart := formatStart;
      this.formatDuration := formatDuration;
      entries := map[];
      duration := None;
      canSeek := false;
      bufferTime := None;
      errorsNotified := 0;
      closed := false;
    }

    /**
     * InitFFmpegContext: after avformat_find_stream_info succeeds, each
     * stream is looked at in order and the maps end up as the catalog; a
     * positive duration is set and makes the source seekable, otherwise the
     * buffer time is set to 0 for live streams. A failing
     * avformat_find_stream_info throws its translated error and changes nothing.
     */
    method InitFFmpegContext(findStreamInfoResult: int) returns (r: Option<HResult>)
      requires entries == map[] && Valid()
      modifies this
      ensures r == Utility.FfmpegCheck(findStreamInfoResult)
      ensures r.Some? ==>
        entries == old(entries) && duration == old(duration) && canSeek == old(canSeek) && bufferTime == old(bufferTime)
      ensures r.None? ==> entries == Catalog(streams, |streams|)
      ensures r.None? && formatDuration > 0 ==>
        duration == Some(formatDuration * HNS_PER_SEC / AV_TIME_BASE) && canSeek && bufferTime == old(bufferTime)
      ensures r.None? && formatDuration <= 0 ==>
        bufferTime == Some(0) && duration == old(duration) && canSeek == old(canSeek)
      ensures errorsNotified == old(errorsNotified) && closed == old(closed) && Valid()
    {
      r := Utility.FfmpegCheck(findStreamInfoResult);
      if r.Some? {
        return;
      }
      var hasAudio, hasVideo := false, false;
      var i := 0;
      while i < |streams|
        invariant 0 <= i <= |streams|
        invariant entries == Catalog(streams, i)
        invariant forall k :: k in entries ==> k < i
        invariant hasAudio == HasKind(streams, i, AudioMedia) && hasVideo == HasKind(streams, i, VideoMedia)
        invariant duration == old(duration) && canSeek == old(canSeek) && bufferTime == old(bufferTime)
        invariant errorsNotified == old(errorsNotified) && closed == old(closed)
      {
        var st := streams[i];
        HasKindStep(streams, i, AudioMedia);
        HasKindStep(streams, i, VideoMedia);
        var choice: Option<StreamFactory.Choice> := None;
        var selected := false;
        match st.kind {
          case AudioMedia =>
            choice := Some(StreamFactory.CreateAudioStream(st.codec, st.params, false));
            if !hasAudio {
              hasAudio := true;
              selected := true;
            }
          case VideoMedia =>
            if !st.attachedPic {
              choice := Some(StreamFactory.CreateVideoStream(st.codec, st.params, false));
              if !hasVideo {
                hasVideo := true;
                selected := true;
              }
            }
          case SubtitleMedia =>
            var created := StreamFactory.CreateSubtitleStream(st.codec);
            if created.Ok? {
              choice := Some(created.value);
            }
          case OtherMedia =>
        }
        if choice.Some? {
          entries := entries[i := NewEntry(st, choice.value, selected)];
        }
        i := i + 1;
      }
      if formatDuration > 0 {
        duration := Some(formatDuration * HNS_PER_SEC / AV_TIME_BASE);
        canSeek := true;
      } else {
        bufferTime := Some(0);
      }
    }

    /**
     * OnStarting: on a successful start every provider is sought to the
     * target; an error is notified to the media stream source; resuming
     * changes nothing.
     */
    method OnStarting(startPosition: Option<int>, seekResult: int) returns (o: StartOutcome)
      requires Valid()
      modifies this
      ensures o == Starting(startPosition, formatStart, formatDuration, seekResult)
      ensures o.StartedAt? ==> entries == SeekAllRescaled(old(entries), streams, SeekTarget(startPosition.value, formatStart))
      ensures !o.StartedAt? ==> entries == old(entries)
      ensures errorsNotified == old(errorsNotified) + (if o.StartFailed? then 1 else 0)
      ensures duration == old(duration) && canSeek == old(canSeek) && bufferTime == old(bufferTime) && closed == old(closed)
      ensures Valid()
    {
      if startPosition.None? {
        return Resumed;
      }
      var avSeekTime := TruncDiv(startPosition.value * AV_TIME_BASE, HNS_PER_SEC);
      if formatStart.Some? {
        avSeekTime := avSeekTime + formatStart.value;
      }
      if avSeekTime > formatDuration {
        errorsNotified := errorsNotified + 1;
        return StartFailed(MfEInvalidTimestamp);
      }
      if seekResult < 0 {
        errorsNotified := errorsNotified + 1;
        return StartFailed(Utility.AverrorToHresult(seekResult));
      }
      entries := SeekAllRescaled(entries, streams, avSeekTime);
      o := StartedAt(startPosition.value);
    }

    /**
     * OnSampleRequested for the stream with the given index: its provider
     * serves the request (reading as SampleProviding describes); an unknown
     * stream, or any failure but the end of the stream, is notified as an error.
     */
    method OnSampleRequested(streamId: nat, deliveries: seq<Delivery>) returns (o: RequestOutcome)
      requires Valid()
      modifies this
      ensures streamId !in old(entries) ==> o == ErrorReported && entries == old(entries)
      ensures streamId in old(entries) ==>
        var st := streams[streamId];
        var g := GetSampleOf(old(entries)[streamId].state, StartTime(st.startTime), st.timeBase, deliveries);
        && o == Reported(g.result)
        && entries == old(entries)[streamId := old(entries)[streamId].(state := g.state)]
      ensures errorsNotified == old(errorsNotified) + (if o == ErrorReported then 1 else 0)
      ensures duration == old(duration) && canSeek == old(canSeek) && bufferTime == old(bufferTime) && closed == old(closed)
      ensures Valid()
    {
      if streamId !in entries {
        errorsNotified := errorsNotified + 1;
        return ErrorReported;
      }
      var e := entries[streamId];
      var st := streams[streamId];
      var g := GetSampleOf(e.state, StartTime(st.startTime), st.timeBase, deliveries);
      entries := entries[streamId := e.(state := g.state)];
      match g.result {
        case Ok(sample) =>
          o := Answered(sample);
        case Err(hr) =>
          if hr == MfEEndOfStream {
            o := Unanswered;
          } else {
            errorsNotified := errorsNotified + 1;
            o := ErrorReported;
          }
      }
    }

    /**
     * OnSwitchStreamsRequested: the old stream, if given, is deselected
     * (and flushed), then the new one, if given, is selected. A stream
     * without a provider makes `at` throw: the error is notified and what
     * was done before it stays done.
     */
    method OnSwitchStreamsRequested(oldStream: Option<nat>, newStream: Option<nat>)
      requires Valid()
      requires oldStream != newStream
      requires oldStream.Some? && oldStream.value in entries ==> entries[oldStream.value].state.isSelected
      requires newStream.Some? && newStream.value in entries ==> !entries[newStream.value].state.isSelected
      modifies this
      ensures var afterOld :=
          if oldStream.Some? && oldStream.value in old(entries)
          then old(entries)[oldStream.value := old(entries)[oldStream.value].(state := Flushed(old(entries)[oldStream.value].state.(isSelected := false)))]
          else old(entries);
        var oldFails := oldStream.Some? && oldStream.value !in old(entries);
        var newFails := !oldFails && newStream.Some? && newStream.value !in old(entries);
        && (oldFails ==> entries == old(entries))
        && (!oldFails && newStream.Some? && !newFails ==>
              entries == afterOld[newStream.value := afterOld[newStream.value].(state := afterOld[newStream.value].state.(isSelected := true))])
        && (!oldFails && (newStream.None? || newFails) ==> entries == afterOld)
        && errorsNotified == old(errorsNotified) + (if oldFails || newFails then 1 else 0)
      ensures duration == old(duration) && canSeek == old(canSeek) && bufferTime == old(bufferTime) && closed == old(closed)
      ensures Valid()
    {
      if oldStream.Some? {
        if oldStream.value !in entries {
          errorsNotified := errorsNotified + 1;
          return;
        }
        var e := entries[oldStream.value];
        entries := entries[oldStream.value := e.(state := Flushed(e.state.(isSelected := false)))];
      }
      if newStream.Some? {
        if newStream.value !in entries {
          errorsNotified := errorsNotified + 1;
          return;
        }
        var e := entries[newStream.value];
        entries := entries[newStream.value := e.(state := e.state.(isSelected := true))];
      }
    }

    /** OnClosed: both maps are cleared and the source is released. */
    method OnClosed()
      requires Valid()
      modifies this
      ensures entries == map[] && closed
      ensures errorsNotified == old(errorsNotified)
      ensures Valid()
    {
      entries := map[];
      closed := true;
    }
  }

  /**
   * A switch between two streams that have providers ends with the old one
   * deselected and flushed and the new one selected, and no error.
   */
  lemma SwitchMovesSelection(entries: map<nat, Entry>, a: nat, b: nat)
    requires a in entries && b in entries && a != b
    ensures var afterOld := entries[a := entries[a].(state := Flushed(entries[a].state.(isSelected := false)))];
      var after := afterOld[b := afterOld[b].(state := afterOld[b].state.(isSelected := true))];
      && !after[a].state.isSelected && after[a].state.queue == [] && after[a].state.isDiscontinuous
      && after[b].state.isSelected && after[b].state.queue == entries[b].state.queue
      && (forall k :: k in entries && k != a && k != b ==> after[k] == entries[k])
  {
  }
}
