// FFmpegReader: reads the next packet of the file and hands it to the
// provider of its stream. The reader knows one audio and one video stream,
// each by its index and, when selected, its sample provider; packets of any
// other stream, or of a stream without a provider, are dropped.
//
// The file is modelled by the sequence of outcomes av_read_frame would give;
// once it is used up every read returns AVERROR_EOF.

module FfmpegReading {
  import opened Common
  import MediaSampleProviding

  /** Where ReadPacket sends a packet. */
  datatype Destination = ToAudio | ToVideo | Dropped

  /**
   * The audio provider takes a packet of the audio stream; failing that, the
   * video provider takes a packet of the video stream; anything else is
   * dropped.
   */
  function Route(streamIndex: int, audioIndex: int, hasAudio: bool, videoIndex: int, hasVideo: bool): (d: Destination)
    ensures d == ToAudio <==> streamIndex == audioIndex && hasAudio
    ensures d == ToVideo <==> !(streamIndex == audioIndex && hasAudio) && streamIndex == videoIndex && hasVideo
    ensures d == Dropped <==> !(streamIndex == audioIndex && hasAudio) && !(streamIndex == videoIndex && hasVideo)
  {
    if streamIndex == audioIndex && hasAudio then ToAudio
    else if streamIndex == videoIndex && hasVideo then ToVideo
    else Dropped
  }

  /** With distinct stream indices, a packet reaches the provider of the stream it belongs to, if there is one. */
  lemma RouteByStream(streamIndex: int, audioIndex: int, hasAudio: bool, videoIndex: int, hasVideo: bool)
    requires audioIndex != videoIndex
    ensures Route(streamIndex, audioIndex, hasAudio, videoIndex, hasVideo) == ToAudio <==> streamIndex == audioIndex && hasAudio
    ensures Route(streamIndex, audioIndex, hasAudio, videoIndex, hasVideo) == ToVideo <==> streamIndex == videoIndex && hasVideo
  {
  }

  /** The value ReadPacket returns: the read's error code, or 0 for a packet. */
  function ReadReturn(input: seq<ReadOutcome>): (ret: int)
    ensures ret <= 0
    ensures ret < 0 <==> input == [] || input[0].ReadFailure?
    ensures input != [] && input[0].ReadFailure? ==> ret == input[0].code
    ensures input == [] ==> ret == AVERROR_EOF
  {
    if input == [] then AVERROR_EOF
    else match input[0]
      case Demuxed(_) => 0
      case ReadFailure(code) => code
  }

  /**
   * How one read looks to the provider of stream `kind` (ToAudio or ToVideo):
   * a packet routed to it, a packet it does not get, or the read's error.
   */
  function SeenBy(input: seq<ReadOutcome>, audioIndex: int, hasAudio: bool, videoIndex: int, hasVideo: bool,
                  kind: Destination): (r: MediaSampleProviding.Read)
    requires kind != Dropped
    ensures r.Delivered? ==> input != [] && input[0].Demuxed? && r.pkt == input[0].pkt
    ensures r.ReadError? <==> ReadReturn(input) < 0
  {
    if input == [] then MediaSampleProviding.ReadError(AVERROR_EOF)
    else match input[0]
      case ReadFailure(code) => MediaSampleProviding.ReadError(code)
      case Demuxed(p) =>
        if Route(p.streamIndex, audioIndex, hasAudio, videoIndex, hasVideo) == kind then MediaSampleProviding.Delivered(p)
        else MediaSampleProviding.OtherStream
  }

  /** No packet is delivered to both providers. */
  lemma DeliveredToOneProvider(input: seq<ReadOutcome>, audioIndex: int, hasAudio: bool, videoIndex: int, hasVideo: bool)
    ensures !(SeenBy(input, audioIndex, hasAudio, videoIndex, hasVideo, ToAudio).Delivered?
              && SeenBy(input, audioIndex, hasAudio, videoIndex, hasVideo, ToVideo).Delivered?)
  {
  }

  class FFmpegReader {
    var audioStreamIndex: int
    var videoStreamIndex: int
    var audioSampleProvider: MediaSampleProviding.MediaSampleProvider?
    var videoSampleProvider: MediaSampleProviding.MediaSampleProvider?
    /** What the remaining av_read_frame calls on the file give. */
    var input: seq<ReadOutcome>

    constructor(input: seq<ReadOutcome>)
      ensures audioStreamIndex == AVERROR_STREAM_NOT_FOUND && videoStreamIndex == AVERROR_STREAM_NOT_FOUND
      ensures audioSampleProvider == null && videoSampleProvider == null
      ensures this.input == input
    {
      audioStreamIndex := AVERROR_STREAM_NOT_FOUND;
      videoStreamIndex := AVERROR_STREAM_NOT_FOUND;
      audioSampleProvider := null;
      videoSampleProvider := null;
      this.input := input;
    }

    /** Where ReadPacket sends packet p. */
    function RouteOf(p: Packet): Destination
      reads this
    {
      Route(p.streamIndex, audioStreamIndex, audioSampleProvider != null, videoStreamIndex, videoSampleProvider != null)
    }

    /** The provider of `kind` sees this read as SeenBy says. */
    function NextSeenBy(kind: Destination): MediaSampleProviding.Read
      requires kind != Dropped
      reads this
    {
      SeenBy(input, audioStreamIndex, audioSampleProvider != null, videoStreamIndex, videoSampleProvider != null, kind)
    }

    /**
     * ReadPacket: one av_read_frame. An error is returned as it is and
     * queues nothing; a packet is queued by the provider it is routed to,
     * and 0 is returned.
     */
    method ReadPacket() returns (ret: int)
      modifies this, audioSampleProvider, videoSampleProvider
      ensures ret == ReadReturn(old(input))
      ensures input == if old(input) == [] then [] else old(input)[1..]
      ensures audioStreamIndex == old(audioStreamIndex) && videoStreamIndex == old(videoStreamIndex)
      ensures audioSampleProvider == old(audioSampleProvider) && videoSampleProvider == old(videoSampleProvider)
      ensures ret < 0 || RouteOf(old(input)[0].pkt) == Dropped ==>
        (audioSampleProvider != null ==> unchanged(audioSampleProvider))
        && (videoSampleProvider != null ==> unchanged(videoSampleProvider))
      ensures ret == 0 && RouteOf(old(input)[0].pkt) == ToAudio ==>
        var p := old(input)[0].pkt;
        && audioSampleProvider != null
        && audioSampleProvider.State() == MediaSampleProviding.Queued(old(audioSampleProvider.State()), p)
        && audioSampleProvider.streamIndex == old(audioSampleProvider.streamIndex)
        && (videoSampleProvider != null && videoSampleProvider != audioSampleProvider ==> unchanged(videoSampleProvider))
      ensures ret == 0 && RouteOf(old(input)[0].pkt) == ToVideo ==>
        var p := old(input)[0].pkt;
        && videoSampleProvider != null
        && videoSampleProvider.State() == MediaSampleProviding.Queued(old(videoSampleProvider.State()), p)
        && videoSampleProvider.streamIndex == old(videoSampleProvider.streamIndex)
        && (audioSampleProvider != null && videoSampleProvider != audioSampleProvider ==> unchanged(audioSampleProvider))
    {
      if input == [] {
        return AVERROR_EOF;
      }
      var outcome := input[0];
      input := input[1..];
      match outcome {
        case ReadFailure(code) =>
          ret := code;
        case Demuxed(p) =>
          ret := 0;
          if p.streamIndex == audioStreamIndex && audioSampleProvider != null {
            audioSampleProvider.QueuePacket(p);
          } else if p.streamIndex == videoStreamIndex && videoSampleProvider != null {
            videoSampleProvider.QueuePacket(p);
          }
      }
    }

    /** SetAudioStream: stores the index and provider, and tells a provider its stream index. */
    method SetAudioStream(index: int, provider: MediaSampleProviding.MediaSampleProvider?)
      requires provider != null ==> provider.nbStreams < UINT32_MODULUS && -0x8000_0000 <= index < 0x8000_0000
      modifies this, provider
      ensures audioStreamIndex == index && audioSampleProvider == provider
      ensures videoStreamIndex == old(videoStreamIndex) && videoSampleProvider == old(videoSampleProvider)
      ensures input == old(input)
      ensures provider != null ==>
        provider.streamIndex == MediaSampleProviding.CurrentStreamIndex(provider.nbStreams, index)
        && provider.State() == old(provider.State())
    {
      audioStreamIndex := index;
      audioSampleProvider := provider;
      if provider != null {
        provider.SetCurrentStreamIndex(index);
      }
    }

    /** SetVideoStream: stores the index and provider, and tells a provider its stream index. */
    method SetVideoStream(index: int, provider: MediaSampleProviding.MediaSampleProvider?)
      requires provider != null ==> provider.nbStreams < UINT32_MODULUS && -0x8000_0000 <= index < 0x8000_0000
      modifies this, provider
      ensures videoStreamIndex == index && videoSampleProvider == provider
      ensures audioStreamIndex == old(audioStreamIndex) && audioSampleProvider == old(audioSampleProvider)
      ensures input == old(input)
      ensures provider != null ==>
        provider.streamIndex == MediaSampleProviding.CurrentStreamIndex(provider.nbStreams, index)
        && provider.State() == old(provider.State())
    {
      videoStreamIndex := index;
      videoSampleProvider := provider;
      if provider != null {
        provider.SetCurrentStreamIndex(index);
      }
    }
  }
}
