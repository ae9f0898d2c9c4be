// The media stream source of the older library build (one audio and one
// video stream, chosen by FFmpeg's best-stream heuristic): opening a source
// from a stream or a URI, the FFmpeg options dictionary, the choice of the
// audio and video stream descriptors, the cover-art thumbnail, the seek on
// Starting and the routing of sample requests.
//
// FFmpeg and the Windows media classes are outside the model: the outcome
// of each call into them (an allocation, avformat_open_input, av_dict_set,
// av_seek_frame) is a parameter.

module LegacyMss {
  import opened Common
  import SF = StreamFactory
  import MediaSampleProviding

  // ---------------------------------------------------------------------
  // Opening

  /**
   * A chain of steps each guarded by SUCCEEDED(hr): the first failing step
   * gives the result and the later ones do not run.
   */
  function FirstFailure(steps: seq<HResult>): (hr: HResult)
    ensures hr == SOk <==> forall i :: 0 <= i < |steps| ==> steps[i] == SOk
    ensures hr != SOk ==> hr in steps
  {
    if steps == [] then SOk
    else if steps[0] != SOk then steps[0]
    else FirstFailure(steps[1..])
  }

  /** The failure reported is the first failing step's. */
  lemma {:induction false} FirstFailureIsFirst(steps: seq<HResult>, k: nat)
    requires k < |steps| && steps[k] != SOk
    requires forall j :: 0 <= j < k ==> steps[j] == SOk
    ensures FirstFailure(steps) == steps[k]
    decreases k
  {
    if k > 0 {
      assert steps[0] == SOk;
      FirstFailureIsFirst(steps[1..], k - 1);
    }
  }

  /** A step that fails with `error` unless `ok`. */
  function Check(ok: bool, error: HResult): HResult
  {
    if ok then SOk else error
  }

  /** What the factories hand back: the new object, with the flags it was opened with. */
  datatype Instance = Instance(fromUri: bool, forceAudioDecode: bool, forceVideoDecode: bool)

  /**
   * CreateMediaStreamSource for a URI: a URI is required, then the format
   * context is allocated, the options parsed, the input opened and the
   * context initialised, in that order.
   */
  function OpenUri(uriPresent: bool, formatAllocated: bool, parseResult: HResult, openInputResult: int, init: HResult): (hr: HResult)
  {
    FirstFailure([Check(uriPresent, EInvalidArg), Check(formatAllocated, EOutOfMemory), parseResult,
                  Check(openInputResult >= 0, EFail), init])
  }

  /**
   * CreateMediaStreamSource for a stream: a stream is required, then the
   * IStream wrapper is made, the read buffer, the custom I/O context and the
   * format context are allocated, the options parsed, the input opened and
   * the context initialised.
   */
  function OpenStream(streamPresent: bool, wrapResult: HResult, bufferAllocated: bool, ioAllocated: bool,
                      formatAllocated: bool, parseResult: HResult, openInputResult: int, init: HResult): (hr: HResult)
  {
    FirstFailure([Check(streamPresent, EInvalidArg), wrapResult, Check(bufferAllocated, EOutOfMemory),
                  Check(ioAllocated, EOutOfMemory), Check(formatAllocated, EOutOfMemory), parseResult,
                  Check(openInputResult >= 0, EFail), init])
  }

  /** The factory functions: the new object when opening succeeded, null otherwise. */
  function Created(hr: HResult, instance: Instance): (r: Option<Instance>)
  {
    if hr == SOk then Some(instance) else None
  }

  /**
   * A source is created exactly when every step succeeds; without a URI no
   * step after the first runs and the failure is E_INVALIDARG.
   */
  lemma UriFactoryContract(uriPresent: bool, formatAllocated: bool, parseResult: HResult, openInputResult: int,
                           init: HResult, forceAudio: bool, forceVideo: bool)
    ensures var hr := OpenUri(uriPresent, formatAllocated, parseResult, openInputResult, init);
      && (Created(hr, Instance(true, forceAudio, forceVideo)).Some? <==>
            uriPresent && formatAllocated && parseResult == SOk && openInputResult >= 0 && init == SOk)
      && (!uriPresent ==> hr == EInvalidArg)
      && (uriPresent && !formatAllocated ==> hr == EOutOfMemory)
  {
    var steps := [Check(uriPresent, EInvalidArg), Check(formatAllocated, EOutOfMemory), parseResult,
                  Check(openInputResult >= 0, EFail), init];
    if !uriPresent {
      FirstFailureIsFirst(steps, 0);
    } else if !formatAllocated {
      FirstFailureIsFirst(steps, 1);
    }
    if Created(OpenUri(uriPresent, formatAllocated, parseResult, openInputResult, init), Instance(true, forceAudio, forceVideo)).Some? {
      assert steps[2] == SOk && steps[3] == SOk && steps[4] == SOk;
    }
  }

  /** The same for a stream: created exactly when every step succeeds; without a stream the failure is E_INVALIDARG. */
  lemma StreamFactoryContract(streamPresent: bool, wrapResult: HResult, bufferAllocated: bool, ioAllocated: bool,
                              formatAllocated: bool, parseResult: HResult, openInputResult: int, init: HResult,
                              forceAudio: bool, forceVideo: bool)
    ensures var hr := OpenStream(streamPresent, wrapResult, bufferAllocated, ioAllocated, formatAllocated,
                                 parseResult, openInputResult, init);
      && (Created(hr, Instance(false, forceAudio, forceVideo)).Some? <==>
            streamPresent && wrapResult == SOk && bufferAllocated && ioAllocated && formatAllocated
            && parseResult == SOk && openInputResult >= 0 && init == SOk)
      && (!streamPresent ==> hr == EInvalidArg)
      && (streamPresent && wrapResult != SOk ==> hr == wrapResult)
  {
    var steps := [Check(streamPresent, EInvalidArg), wrapResult, Check(bufferAllocated, EOutOfMemory),
                  Check(ioAllocated, EOutOfMemory), Check(formatAllocated, EOutOfMemory), parseResult,
                  Check(openInputResult >= 0, EFail), init];
    if !streamPresent {
      FirstFailureIsFirst(steps, 0);
    } else if wrapResult != SOk {
      FirstFailureIsFirst(steps, 1);
    }
    if Created(OpenStream(streamPresent, wrapResult, bufferAllocated, ioAllocated, formatAllocated,
                          parseResult, openInputResult, init), Instance(false, forceAudio, forceVideo)).Some? {
      assert steps[2] == SOk && steps[3] == SOk && steps[4] == SOk;
      assert steps[5] == SOk && steps[6] == SOk && steps[7] == SOk;
    }
  }

  // ---------------------------------------------------------------------
  // The options dictionary

  /** ASCII upper case, as av_strcasecmp compares. */
  function Upper(c: char): char
  {
    if 'a' <= c <= 'z' then (c as int - 32) as char else c
  }

  /** Keys are matched without regard to ASCII case (no AV_DICT_MATCH_CASE). */
  predicate SameKey(a: string, b: string)
  {
    |a| == |b| && forall i :: 0 <= i < |a| ==> Upper(a[i]) == Upper(b[i])
  }

  type Dict = seq<(string, string)>

  /** av_dict_get: the value of the first entry whose key matches. */
  function Lookup(d: Dict, key: string): (v: Option<string>)
    ensures v.None? <==> forall i :: 0 <= i < |d| ==> !SameKey(d[i].0, key)
  {
    if d == [] then None
    else if SameKey(d[0].0, key) then Some(d[0].1)
    else Lookup(d[1..], key)
  }

  /** The entries whose key does not match. */
  function Without(d: Dict, key: string): (r: Dict)
    ensures forall i :: 0 <= i < |r| ==> !SameKey(r[i].0, key)
  {
    if d == [] then []
    else if SameKey(d[0].0, key) then Without(d[1..], key)
    else [d[0]] + Without(d[1..], key)
  }

  /** av_dict_set without flags: any entry with a matching key is replaced by the new one. */
  function DictSet(d: Dict, key: string, value: string): Dict
  {
    Without(d, key) + [(key, value)]
  }

  lemma {:induction false} LookupAppend(d: Dict, e: Dict, key: string)
    ensures Lookup(d + e, key) == if Lookup(d, key).Some? then Lookup(d, key) else Lookup(e, key)
  {
    if d != [] {
      assert (d + e)[1..] == d[1..] + e;
      LookupAppend(d[1..], e, key);
    } else {
      assert d + e == e;
    }
  }

  /** SameKey is an equivalence: a key matching one key does not match a key that one does not match. */
  lemma SameKeySeparates(a: string, key: string, other: string)
    requires SameKey(a, key) && !SameKey(other, key)
    ensures !SameKey(a, other)
  {
    if |a| == |other| {
      var i :| 0 <= i < |other| && Upper(other[i]) != Upper(key[i]);
      assert Upper(a[i]) != Upper(other[i]);
    }
  }

  lemma {:induction false} LookupWithout(d: Dict, key: string, other: string)
    requires !SameKey(other, key)
    ensures Lookup(Without(d, key), other) == Lookup(d, other)
  {
    if d != [] {
      LookupWithout(d[1..], key, other);
      if SameKey(d[0].0, key) {
        SameKeySeparates(d[0].0, key, other);
      }
    }
  }

  /** After a set, the key reads back the new value and every other key reads as before. */
  lemma DictSetLookup(d: Dict, key: string, value: string, other: string)
    ensures Lookup(DictSet(d, key, value), key) == Some(value)
    ensures !SameKey(other, key) ==> Lookup(DictSet(d, key, value), other) == Lookup(d, other)
  {
    var w := Without(d, key);
    LookupAppend(w, [(key, value)], key);
    assert SameKey(key, key);
    if !SameKey(other, key) {
      LookupAppend(w, [(key, value)], other);
      LookupWithout(d, key, other);
    }
  }

  /** ParseOptions' result: the HRESULT and the dictionary. */
  datatype Parsed = Parsed(hr: HResult, dict: Dict)

  /**
   * The options from the first not yet added, each set in turn; the loop
   * stops at the first av_dict_set that fails (its result in `results` is
   * negative), with E_INVALIDARG, keeping what was set before it.
   */
  function ParseFrom(dict: Dict, options: seq<(string, string)>, results: seq<int>): (p: Parsed)
    requires |results| == |options|
    ensures p.hr == SOk || p.hr == EInvalidArg
    ensures p.hr == EInvalidArg <==> exists i :: 0 <= i < |results| && results[i] < 0
    decreases |options|
  {
    if options == [] then Parsed(SOk, dict)
    else if results[0] < 0 then Parsed(EInvalidArg, dict)
    else
      var p := ParseFrom(DictSet(dict, options[0].0, options[0].1), options[1..], results[1..]);
      assert forall i :: 1 <= i < |results| ==> results[i] == results[1..][i - 1];
      p
  }

  /** ParseOptions: no options leave the dictionary alone. */
  function ParseOptionsOf(dict: Dict, options: Option<seq<(string, string)>>, results: seq<int>): Parsed
    requires options.Some? ==> |results| == |options.value|
  {
    if options.None? then Parsed(SOk, dict) else ParseFrom(dict, options.value, results)
  }

  /** The value the last matching option gives a key, or the dictionary's when no option names it. */
  function LastValue(dict: Dict, options: seq<(string, string)>, key: string): Option<string>
  {
    if options == [] then Lookup(dict, key)
    else if SameKey(options[|options| - 1].0, key) then Some(options[|options| - 1].1)
    else LastValue(dict, options[..|options| - 1], key)
  }

  lemma {:induction false} LastValueOfSet(dict: Dict, options: seq<(string, string)>, key: string)
    requires options != []
    ensures LastValue(DictSet(dict, options[0].0, options[0].1), options[1..], key) == LastValue(dict, options, key)
    decreases |options|
  {
    var n := |options|;
    if n == 1 {
      DictSetLookup(dict, options[0].0, options[0].1, key);
      if SameKey(options[0].0, key) {
        assert SameKey(key, options[0].0);
        assert Lookup(DictSet(dict, options[0].0, options[0].1), key) == Some(options[0].1) by {
          LookupAppend(Without(dict, options[0].0), [(options[0].0, options[0].1)], key);
          assert Lookup(Without(dict, options[0].0), key).None?;
        }
      } else {
        assert !SameKey(key, options[0].0);
      }
      assert options[..0] == [];
    } else if !SameKey(options[n - 1].0, key) {
      assert options[1..][..n - 2] == options[..n - 1][1..];
      LastValueOfSet(dict, options[..n - 1], key);
    }
  }

  /**
   * When every option is added, each key reads back the value of the last
   * option naming it, and keys no option names keep their old value.
   */
  lemma {:induction false} ParsedDictionaryHoldsLastValues(dict: Dict, options: seq<(string, string)>, results: seq<int>, key: string)
    requires |results| == |options| && forall i :: 0 <= i < |results| ==> results[i] >= 0
    ensures ParseFrom(dict, options, results).hr == SOk
    ensures Lookup(ParseFrom(dict, options, results).dict, key) == LastValue(dict, options, key)
    decreases |options|
  {
    if options != [] {
      var d' := DictSet(dict, options[0].0, options[0].1);
      ParsedDictionaryHoldsLastValues(d', options[1..], results[1..], key);
      LastValueOfSet(dict, options, key);
    }
  }

  /**
   * The options CreateFFmpegInteropMSSFromStream(stream, forceAudioDecode,
   * forceVideoDecode, ffmpegOptions) hands on to the overload that opens
   * the stream, as written: a null options set, whatever the caller gave.
   */
  function StreamOverloadOptionsAsWritten(options: Option<seq<(string, string)>>): Option<seq<(string, string)>>
  {
    None
  }

  /** The options that overload evidently means to hand on: the caller's own. */
  function StreamOverloadOptions(options: Option<seq<(string, string)>>): Option<seq<(string, string)>>
  {
    options
  }

  /**
   * As written, options given to that overload never reach the dictionary:
   * parsing succeeds and leaves it as it was, so an option such as
   * rtsp_transport=tcp is not set.
   */
  lemma StreamOverloadDropsOptions(dict: Dict, options: seq<(string, string)>, results: seq<int>)
    requires |results| == |options|
    ensures ParseOptionsOf(dict, StreamOverloadOptionsAsWritten(Some(options)), results) == Parsed(SOk, dict)
    ensures Lookup(ParseOptionsOf([], StreamOverloadOptionsAsWritten(Some([("rtsp_transport", "tcp")])), [0]).dict, "rtsp_transport").None?
    ensures Lookup(ParseOptionsOf([], StreamOverloadOptions(Some([("rtsp_transport", "tcp")])), [0]).dict, "rtsp_transport") == Some("tcp")
  {
    DictSetLookup([], "rtsp_transport", "tcp", "rtsp_transport");
  }

  /**
   * Handing the caller's options on, every option the stream overload is
   * given is parsed as for a URI: when each is added, each key reads back
   * the value of the last option naming it.
   */
  lemma StreamOverloadKeepsOptions(dict: Dict, options: seq<(string, string)>, results: seq<int>, key: string)
    requires |results| == |options| && forall i :: 0 <= i < |results| ==> results[i] >= 0
    ensures ParseOptionsOf(dict, StreamOverloadOptions(Some(options)), results).hr == SOk
    ensures Lookup(ParseOptionsOf(dict, StreamOverloadOptions(Some(options)), results).dict, key) == LastValue(dict, options, key)
  {
    ParsedDictionaryHoldsLastValues(dict, options, results, key);
  }

  // ---------------------------------------------------------------------
  // Stream descriptors

  /** FF_PROFILE_AAC_HE and FF_PROFILE_AAC_HE_V2. */
  const FF_PROFILE_AAC_HE: int := 4
  const FF_PROFILE_AAC_HE_V2: int := 28

  /** The audio codec context fields the descriptor reads. */
  datatype AudioContext = AudioContext(codec: SF.Codec, extradataSize: nat, profile: int, sampleRate: int, channels: int, bitRate: int)

  datatype AudioEncoding =
    | AacAdtsEncoding(sampleRate: int, channels: int, bitrate: nat)
    | AacEncoding(sampleRate: int, channels: int, bitrate: nat)
    | Mp3Encoding(sampleRate: int, channels: int, bitrate: nat)
    | PcmEncoding(sampleRate: int, channels: int, bitsPerSample: nat)

  /** The provider class: the packet-passing MediaSampleProvider or the decoding UncompressedAudioSampleProvider. */
  datatype AudioProvider = PassthroughAudio | DecodedAudio

  /** CreateAudioStreamDescriptor. */
  function AudioDescriptor(ctx: AudioContext, forceAudioDecode: bool): (d: (AudioEncoding, AudioProvider))
    ensures d.1 == PassthroughAudio <==> !forceAudioDecode && (ctx.codec == SF.Aac || ctx.codec == SF.Mp3)
    ensures d.1 == DecodedAudio <==> d.0.PcmEncoding?
    ensures d.0.PcmEncoding? ==> d.0 == PcmEncoding(ctx.sampleRate, ctx.channels, 16)
    ensures d.0.AacAdtsEncoding? <==> d.1 == PassthroughAudio && ctx.codec == SF.Aac && ctx.extradataSize == 0
    ensures d.1 == PassthroughAudio ==> d.0.channels == ctx.channels && d.0.bitrate == ToUint32(ctx.bitRate)
  {
    if ctx.codec == SF.Aac && !forceAudioDecode then
      if ctx.extradataSize == 0 then
        (AacAdtsEncoding(ctx.sampleRate, ctx.channels, ToUint32(ctx.bitRate)), PassthroughAudio)
      else
        var rate := if ctx.profile == FF_PROFILE_AAC_HE || ctx.profile == FF_PROFILE_AAC_HE_V2
                    then TruncDiv(ctx.sampleRate, 2) else ctx.sampleRate;
        (AacEncoding(rate, ctx.channels, ToUint32(ctx.bitRate)), PassthroughAudio)
    else if ctx.codec == SF.Mp3 && !forceAudioDecode then
      (Mp3Encoding(ctx.sampleRate, ctx.channels, ToUint32(ctx.bitRate)), PassthroughAudio)
    else
      (PcmEncoding(ctx.sampleRate, ctx.channels, 16), DecodedAudio)
  }

  /**
   * Passed-through AAC with extradata advertises half the codec's sample
   * rate (rounded down) for the HE-AAC profiles, whose SBR layer doubles
   * it, and the codec's rate otherwise; ADTS and MP3 keep the codec's rate.
   */
  lemma AdvertisedSampleRate(ctx: AudioContext, forceAudioDecode: bool)
    requires ctx.sampleRate >= 0
    ensures var (enc, _) := AudioDescriptor(ctx, forceAudioDecode);
      && (enc.AacEncoding? && (ctx.profile == FF_PROFILE_AAC_HE || ctx.profile == FF_PROFILE_AAC_HE_V2) ==>
            2 * enc.sampleRate <= ctx.sampleRate <= 2 * enc.sampleRate + 1)
      && (!(enc.AacEncoding? && (ctx.profile == FF_PROFILE_AAC_HE || ctx.profile == FF_PROFILE_AAC_HE_V2)) ==>
            enc.sampleRate == ctx.sampleRate)
  {
    if ctx.codec == SF.Aac && !forceAudioDecode && ctx.extradataSize != 0 {
      TruncDivBounds(ctx.sampleRate, 2);
    }
  }

  datatype Rational = Rational(num: int, den: int)

  /** The video codec context fields the descriptor reads. */
  datatype VideoContext = VideoContext(codec: SF.Codec, extradata: seq<Byte>, profile: int, width: int, height: int,
                                       sampleAspectRatio: Rational, frameRate: Rational, bitRate: int)

  datatype VideoSubtype = H264Subtype | Nv12Subtype

  datatype VideoEncoding = VideoEncoding(
    subtype: VideoSubtype,
    profileId: Option<int>,
    width: int,
    height: int,
    pixelAspectRatio: Option<Rational>,
    mixedInterlace: bool,       // MF_MT_INTERLACE_MODE set to mixed interlace or progressive
    rotation: Option<nat>,      // MF_MT_VIDEO_ROTATION
    frameRate: Option<Rational>,
    bitrate: nat)

  datatype VideoProvider = H264AvcProvider | H264AnnexBProvider | DecodedVideo

  /**
   * The frame rate: the codec's unless it is the unset value 0/1, else the
   * stream's average unless it is 0/0, else none is set.
   */
  function DetectedFrameRate(codecRate: Rational, averageRate: Rational): (r: Option<Rational>)
    ensures r.None? <==> codecRate == Rational(0, 1) && averageRate == Rational(0, 0)
    ensures codecRate != Rational(0, 1) ==> r == Some(codecRate)
    ensures codecRate == Rational(0, 1) && r.Some? ==> r == Some(averageRate)
  {
    if codecRate.num != 0 || codecRate.den != 1 then Some(codecRate)
    else if averageRate.num != 0 || averageRate.den != 0 then Some(averageRate)
    else None
  }

  /**
   * CreateVideoStreamDescriptor: H.264 is passed through unless decoding is
   * forced, in AVC form when the extradata starts with 1 (a configuration
   * record) and in Annex B form otherwise; anything else is decoded to NV12.
   * `rotation` is the stream's "rotate" tag read as a number, when present.
   */
  function VideoDescriptor(ctx: VideoContext, averageFrameRate: Rational, rotation: Option<int>, forceVideoDecode: bool): (d: (VideoEncoding, VideoProvider))
    ensures d.1 != DecodedVideo <==> ctx.codec == SF.H264 && !forceVideoDecode
    ensures d.1 == H264AvcProvider <==> d.1 != DecodedVideo && |ctx.extradata| > 0 && ctx.extradata[0] == 1
    ensures d.0.subtype == (if d.1 == DecodedVideo then Nv12Subtype else H264Subtype)
    ensures d.0.width == ctx.width && d.0.height == ctx.height
    ensures d.0.profileId.Some? <==> d.1 != DecodedVideo
    ensures d.0.mixedInterlace <==> d.1 == DecodedVideo
    ensures d.0.pixelAspectRatio.Some? <==>
      d.1 == DecodedVideo && ctx.sampleAspectRatio.num > 0 && ctx.sampleAspectRatio.den != 0
    ensures d.0.pixelAspectRatio.Some? ==> d.0.pixelAspectRatio.value == ctx.sampleAspectRatio
    ensures d.0.rotation.Some? <==> rotation.Some?
    ensures d.0.frameRate == DetectedFrameRate(ctx.frameRate, averageFrameRate)
    ensures d.0.bitrate == ToUint32(ctx.bitRate)
  {
    var passthrough := ctx.codec == SF.H264 && !forceVideoDecode;
    var provider :=
      if !passthrough then DecodedVideo
      else if |ctx.extradata| > 0 && ctx.extradata[0] == 1 then H264AvcProvider
      else H264AnnexBProvider;
    var aspect :=
      if !passthrough && ctx.sampleAspectRatio.num > 0 && ctx.sampleAspectRatio.den != 0
      then Some(ctx.sampleAspectRatio) else None;
    var enc := VideoEncoding(
      if passthrough then H264Subtype else Nv12Subtype,
      if passthrough then Some(ctx.profile) else None,
      ctx.width, ctx.height, aspect, !passthrough,
      if rotation.Some? then Some(ToUint32(rotation.value)) else None,
      DetectedFrameRate(ctx.frameRate, averageFrameRate),
      ToUint32(ctx.bitRate));
    (enc, provider)
  }

  // ---------------------------------------------------------------------
  // Streams and the thumbnail

  /** The stream fields the source reads. */
  datatype StreamRecord = StreamRecord(attachedPic: bool, codec: SF.Codec, picture: seq<Byte>, timeBase: TimeBase)

  /** The picture codecs whose file extension is not the default. */
  datatype PictureCodec = MjpegPicture | MjpegbPicture | Jpeg2000Picture | JpegLsPicture | PngPicture | BmpPicture | OtherPicture

  /** ExtractThumbnail's file extension: .png and .bmp for those codecs, .jpeg for anything else. */
  function ThumbnailExtension(codec: PictureCodec): (ext: string)
    ensures ext == ".png" <==> codec == PngPicture
    ensures ext == ".bmp" <==> codec == BmpPicture
    ensures ext == ".jpeg" <==> codec != PngPicture && codec != BmpPicture
  {
    match codec
      case PngPicture => ".png"
      case BmpPicture => ".bmp"
      case _ => ".jpeg"
  }

  /** The stream indices InitFFmpegContext keeps. */
  datatype StreamIndices = StreamIndices(audio: int, video: int, thumbnail: int)

  /**
   * The indices after the best-stream search: the audio index as found; a
   * video stream found with a decoder becomes the thumbnail instead when it
   * is cover art (an attached picture); otherwise the thumbnail keeps its
   * value.
   */
  function ChooseStreams(before: StreamIndices, bestAudio: int, bestVideo: int, videoDecoderFound: bool, streams: seq<StreamRecord>): (r: StreamIndices)
    requires bestVideo != AVERROR_STREAM_NOT_FOUND && videoDecoderFound ==> 0 <= bestVideo < |streams|
  {
    if bestVideo != AVERROR_STREAM_NOT_FOUND && videoDecoderFound then
      if streams[bestVideo].attachedPic then StreamIndices(bestAudio, AVERROR_STREAM_NOT_FOUND, bestVideo)
      else StreamIndices(bestAudio, bestVideo, AVERROR_STREAM_NOT_FOUND)
    else StreamIndices(bestAudio, bestVideo, before.thumbnail)
  }

  datatype Thumbnail = Thumbnail(data: seq<Byte>, extension: string)

  /** ExtractThumbnail: the cover art with its extension, or null when there is none. */
  function ExtractThumbnail(thumbnailIndex: int, streams: seq<StreamRecord>, pictureCodec: PictureCodec): (t: Option<Thumbnail>)
    requires thumbnailIndex != AVERROR_STREAM_NOT_FOUND ==> 0 <= thumbnailIndex < |streams|
    ensures t.Some? <==> thumbnailIndex != AVERROR_STREAM_NOT_FOUND && streams[thumbnailIndex].attachedPic
    ensures t.Some? ==> t.value.data == streams[thumbnailIndex].picture
  {
    if thumbnailIndex != AVERROR_STREAM_NOT_FOUND && streams[thumbnailIndex].attachedPic then
      Some(Thumbnail(streams[thumbnailIndex].picture, ThumbnailExtension(pictureCodec)))
    else None
  }

  /**
   * From the initial indices, a thumbnail is extracted exactly when the best
   * video stream is cover art, and the video index then is
   * AVERROR_STREAM_NOT_FOUND: cover art is never played as video. (The
   * best-stream search returns a decoder exactly when it returns a stream.)
   */
  lemma ThumbnailOnlyForCoverArt(bestAudio: int, bestVideo: int, videoDecoderFound: bool, streams: seq<StreamRecord>, pictureCodec: PictureCodec)
    requires videoDecoderFound <==> bestVideo >= 0
    requires bestVideo < |streams|
    ensures var r := ChooseStreams(StreamIndices(AVERROR_STREAM_NOT_FOUND, AVERROR_STREAM_NOT_FOUND, AVERROR_STREAM_NOT_FOUND),
                                   bestAudio, bestVideo, videoDecoderFound, streams);
      && (r.thumbnail != AVERROR_STREAM_NOT_FOUND ==> 0 <= r.thumbnail < |streams| && streams[r.thumbnail].attachedPic)
      && (r.thumbnail != AVERROR_STREAM_NOT_FOUND ==> ExtractThumbnail(r.thumbnail, streams, pictureCodec).Some?)
      && (r.thumbnail == AVERROR_STREAM_NOT_FOUND ==> ExtractThumbnail(r.thumbnail, streams, pictureCodec).None?)
      && (r.thumbnail != AVERROR_STREAM_NOT_FOUND <==> bestVideo >= 0 && streams[bestVideo].attachedPic)
      && (r.video >= 0 ==> r.video == bestVideo && !streams[r.video].attachedPic)
  {
  }

  // ---------------------------------------------------------------------
  // Starting and sample requests

  /**
   * The seek target in the stream's time base: the start position (100 ns
   * units) divided by the time base times 10^7, truncated.
   */
  function SeekTarget(startPosition: int, tb: TimeBase): int
    requires tb.num > 0 && tb.den > 0
  {
    TruncDiv(startPosition * tb.den, tb.num * HNS_PER_SEC)
  }

  /** Converted back to 100 ns units, the target never lies past the start position, and hits it when it is a whole tick. */
  lemma SeekTargetNotPastStart(startPosition: nat, tb: TimeBase)
    requires tb.num > 0 && tb.den > 0
    ensures ToHns(tb, SeekTarget(startPosition, tb)) <= startPosition
    ensures (startPosition * tb.den) % (tb.num * HNS_PER_SEC) == 0 ==> ToHns(tb, SeekTarget(startPosition, tb)) == startPosition
  {
    var n: nat := startPosition * tb.den;
    var d := tb.num * HNS_PER_SEC;
    MulLe(1, tb.num, HNS_PER_SEC);
    var r := n / d;
    assert SeekTarget(startPosition, tb) == r;
    FloorMul(n, d);
    var x := r * tb.num * HNS_PER_SEC;
    assert x == r * d;
    assert ToHns(tb, r) == x / tb.den;
    DivMonotone(x, n, tb.den);
    MulDivCancel(startPosition, tb.den);
  }

  /** The stream a seek goes to: video if there is one, else audio, else none (-1). */
  function SeekStream(videoStreamIndex: int, audioStreamIndex: int): (s: int)
    ensures s >= 0 ==> s == videoStreamIndex || s == audioStreamIndex
    ensures s == -1 <==> videoStreamIndex < 0 && audioStreamIndex < 0
    ensures videoStreamIndex >= 0 ==> s == videoStreamIndex
  {
    if videoStreamIndex >= 0 then videoStreamIndex else if audioStreamIndex >= 0 then audioStreamIndex else -1
  }

  /** What Starting did: the av_seek_frame call made (stream, target), if any, and the actual start position set, if any. */
  datatype Start = Start(seek: Option<(int, int)>, flushed: bool, actualStart: Option<int>)

  /** Which provider a sample request is handed to. */
  datatype Route = AudioSample | VideoSample | NullSample | Untouched

  /** The descriptor a request names. */
  datatype Requested = AudioDescriptorRequested | VideoDescriptorRequested | OtherDescriptorRequested

  /**
   * OnSampleRequested: with a media stream source, a request for the audio
   * or video descriptor is handed to that provider if there is one, and any
   * other request gets a null sample; without one the request is left alone.
   */
  function SampleRoute(hasSource: bool, requested: Requested, hasAudioProvider: bool, hasVideoProvider: bool): (r: Route)
    ensures r == Untouched <==> !hasSource
    ensures r == AudioSample <==> hasSource && requested == AudioDescriptorRequested && hasAudioProvider
    ensures r == VideoSample <==> hasSource && requested == VideoDescriptorRequested && hasVideoProvider
  {
    if !hasSource then Untouched
    else if requested == AudioDescriptorRequested && hasAudioProvider then AudioSample
    else if requested == VideoDescriptorRequested && hasVideoProvider then VideoSample
    else NullSample
  }

  /** 2^64, and the least int64_t, which is also AV_NOPTS_VALUE (an unknown duration). */
  const INT64_MODULUS: int := 0x1_0000_0000_0000_0000
  const INT64_MIN: int := -0x8000_0000_0000_0000
  const AV_NOPTS_VALUE: int := INT64_MIN

  /** An int64_t product: the value wrapped into the int64_t range, as two's-complement multiplication leaves it. */
  function ToInt64(x: int): (r: int)
    ensures INT64_MIN <= r < -INT64_MIN
    ensures (x - r) % INT64_MODULUS == 0
    ensures INT64_MIN <= x < -INT64_MIN ==> r == x
  {
    (x - INT64_MIN) % INT64_MODULUS + INT64_MIN
  }

  /**
   * The media duration in 100 ns units from the format's (AV_TIME_BASE)
   * duration: the duration times 10^7 in int64_t, then divided by 10^6 and
   * truncated. The product wraps once the duration exceeds about 9.2 * 10^11
   * microseconds (some ten days), and an unknown duration (AV_NOPTS_VALUE)
   * wraps to 0.
   */
  function MediaDuration(formatDuration: int): (d: int)
    ensures -(-INT64_MIN / 1000000) <= d <= -INT64_MIN / 1000000
  {
    TruncDiv(ToInt64(formatDuration * HNS_PER_SEC), 1000000)
  }

  /** Below the overflow, the media duration is ten times the format's duration. */
  lemma MediaDurationWithoutOverflow(formatDuration: int)
    requires Abs(formatDuration) * HNS_PER_SEC < -INT64_MIN
    ensures MediaDuration(formatDuration) == 10 * formatDuration
  {
    assert formatDuration >= 0 ==> formatDuration * HNS_PER_SEC == (10 * formatDuration) * 1000000;
    MulDivCancel(Abs(formatDuration) * 10, 1000000);
  }

  /**
   * An unknown duration (a live stream) wraps to a media duration of 0, so
   * only a start position of at most 0 is in range.
   */
  lemma UnknownDurationIsZero()
    ensures MediaDuration(AV_NOPTS_VALUE) == 0
  {
    assert AV_NOPTS_VALUE * HNS_PER_SEC - 0 == -(5000000 * INT64_MODULUS);
  }

  /**
   * A duration of 10^12 microseconds (about 11.6 days) overflows the int64_t
   * product and gives a negative media duration, so such a source cannot
   * seek.
   */
  lemma LongDurationWrapsNegative()
    ensures MediaDuration(1000000000000) < 0
  {
    var p := ToInt64(1000000000000 * HNS_PER_SEC);
    assert p == 1000000000000 * HNS_PER_SEC - INT64_MODULUS;
  }

  class FFmpegInteropMSS {
    /** The streams of the format context. */
    const streams: seq<StreamRecord>

    var avDict: Dict
    var audioStreamIndex: int
    var videoStreamIndex: int
    var thumbnailStreamIndex: int
    var mediaDuration: int
    /** Whether the media stream source reports a duration and can seek, and its buffer time if set to 0. */
    var canSeek: bool
    var zeroBufferTime: bool
    var audioProvider: MediaSampleProviding.MediaSampleProvider?
    var videoProvider: MediaSampleProviding.MediaSampleProvider?

    /** Every index the source uses names a stream whose time base can be converted. */
    predicate Valid()
      reads this
    {
      && (forall i :: 0 <= i < |streams| ==> streams[i].timeBase.num > 0 && streams[i].timeBase.den > 0)
      && (audioStreamIndex >= 0 ==> audioStreamIndex < |streams|)
      && (videoStreamIndex >= 0 ==> videoStreamIndex < |streams|)
      && (thumbnailStreamIndex != AVERROR_STREAM_NOT_FOUND ==> 0 <= thumbnailStreamIndex < |streams|)
    }

    /** A new object has no options, no streams and no providers. */
    constructor (streams: seq<StreamRecord>)
      requires forall i :: 0 <= i < |streams| ==> streams[i].timeBase.num > 0 && streams[i].timeBase.den > 0
      ensures this.streams == streams && avDict == []
      ensures audioStreamIndex == AVERROR_STREAM_NOT_FOUND && videoStreamIndex == AVERROR_STREAM_NOT_FOUND
      ensures thumbnailStreamIndex == AVERROR_STREAM_NOT_FOUND
      ensures audioProvider == null && videoProvider == null && !canSeek && !zeroBufferTime
      ensures Valid()
    {
      this.streams := streams;
      avDict := [];
      audioStreamIndex := AVERROR_STREAM_NOT_FOUND;
      videoStreamIndex := AVERROR_STREAM_NOT_FOUND;
      thumbnailStreamIndex := AVERROR_STREAM_NOT_FOUND;
      mediaDuration := 0;
      canSeek := false;
      zeroBufferTime := false;
      audioProvider := null;
      videoProvider := null;
    }

    /**
     * ParseOptions: each option is added to the dictionary in turn; the
     * first av_dict_set that fails (result `results[i]` negative) stops the
     * loop with E_INVALIDARG.
     */
    method ParseOptions(options: Option<seq<(string, string)>>, results: seq<int>) returns (hr: HResult)
      requires options.Some? ==> |results| == |options.value|
      modifies this
      ensures Parsed(hr, avDict) == ParseOptionsOf(old(avDict), options, results)
      ensures unchanged(this`audioStreamIndex, this`videoStreamIndex, this`thumbnailStreamIndex, this`mediaDuration)
      ensures unchanged(this`canSeek, this`zeroBufferTime, this`audioProvider, this`videoProvider)
    {
      hr := SOk;
      if options.Some? {
        var opts := options.value;
        var i := 0;
        while i < |opts|
          invariant 0 <= i <= |opts|
          invariant ParseFrom(avDict, opts[i..], results[i..]) == ParseFrom(old(avDict), opts, results)
          invariant unchanged(this`audioStreamIndex, this`videoStreamIndex, this`thumbnailStreamIndex, this`mediaDuration)
          invariant unchanged(this`canSeek, this`zeroBufferTime, this`audioProvider, this`videoProvider)
          decreases |opts| - i
        {
          assert opts[i..][1..] == opts[i + 1..] && results[i..][1..] == results[i + 1..];
          if results[i] < 0 {
            hr := EInvalidArg;
            break;
          }
          avDict := DictSet(avDict, opts[i].0, opts[i].1);
          i := i + 1;
        }
      }
    }

    /**
     * The part of InitFFmpegContext that keeps the stream indices, the
     * providers made for them and the duration: a positive duration makes
     * the source seekable, otherwise its buffer time is set to 0.
     */
    method InitStreams(bestAudio: int, bestVideo: int, videoDecoderFound: bool, formatDuration: int,
                       audio: MediaSampleProviding.MediaSampleProvider?, video: MediaSampleProviding.MediaSampleProvider?)
      requires Valid()
      requires bestAudio >= 0 ==> bestAudio < |streams|
      requires bestVideo >= 0 ==> bestVideo < |streams|
      requires bestVideo != AVERROR_STREAM_NOT_FOUND && videoDecoderFound ==> 0 <= bestVideo < |streams|
      modifies this
      ensures StreamIndices(audioStreamIndex, videoStreamIndex, thumbnailStreamIndex) ==
        ChooseStreams(old(StreamIndices(audioStreamIndex, videoStreamIndex, thumbnailStreamIndex)),
                      bestAudio, bestVideo, videoDecoderFound, streams)
      ensures mediaDuration == MediaDuration(formatDuration)
      ensures canSeek <==> mediaDuration > 0
      ensures zeroBufferTime <==> mediaDuration <= 0
      ensures audioProvider == audio && videoProvider == video && avDict == old(avDict)
      ensures Valid()
    {
      audioStreamIndex := bestAudio;
      if bestVideo != AVERROR_STREAM_NOT_FOUND && videoDecoderFound {
        if streams[bestVideo].attachedPic {
          thumbnailStreamIndex := bestVideo;
          videoStreamIndex := AVERROR_STREAM_NOT_FOUND;
        } else {
          thumbnailStreamIndex := AVERROR_STREAM_NOT_FOUND;
          videoStreamIndex := bestVideo;
        }
      } else {
        videoStreamIndex := bestVideo;
      }
      audioProvider := audio;
      videoProvider := video;
      mediaDuration := TruncDiv(ToInt64(formatDuration * HNS_PER_SEC), 1000000);
      canSeek := mediaDuration > 0;
      zeroBufferTime := !canSeek;
    }

    /**
     * OnStarting: a requested start position no later than the duration
     * seeks the video stream (else the audio stream) to it, backward to a
     * key frame; a seek that succeeds flushes both providers. The actual
     * start position is set to the requested one whenever it was in range,
     * even without a stream or when the seek failed.
     */
    method OnStarting(startPosition: Option<int>, seekResult: int) returns (s: Start)
      requires Valid()
      requires audioProvider != videoProvider || audioProvider == null
      modifies audioProvider, videoProvider
      ensures var inRange := startPosition.Some? && startPosition.value <= mediaDuration;
        var stream := SeekStream(videoStreamIndex, audioStreamIndex);
        && (s.actualStart.Some? <==> inRange)
        && (inRange ==> s.actualStart == startPosition)
        && (s.seek.Some? <==> inRange && stream >= 0)
        && (s.seek.Some? ==> s.seek.value == (stream, SeekTarget(startPosition.value, streams[stream].timeBase)))
        && (s.flushed <==> s.seek.Some? && seekResult >= 0)
      ensures audioProvider != null ==>
        audioProvider.State() == if s.flushed then MediaSampleProviding.Flushed(old(audioProvider.State())) else old(audioProvider.State())
      ensures videoProvider != null ==>
        videoProvider.State() == if s.flushed then MediaSampleProviding.Flushed(old(videoProvider.State())) else old(videoProvider.State())
    {
      s := Start(None, false, None);
      if startPosition.Some? && startPosition.value <= mediaDuration {
        var streamIndex := if videoStreamIndex >= 0 then videoStreamIndex else if audioStreamIndex >= 0 then audioStreamIndex else -1;
        if streamIndex >= 0 {
          var target := SeekTarget(startPosition.value, streams[streamIndex].timeBase);
          s := s.(seek := Some((streamIndex, target)));
          if seekResult >= 0 {
            if audioProvider != null {
              audioProvider.Flush();
            }
            if videoProvider != null {
              videoProvider.Flush();
            }
            s := s.(flushed := true);
          }
        }
        s := s.(actualStart := startPosition);
      }
    }
  }
}
