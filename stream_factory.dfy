// StreamFactory: the tables that pick, for a stream's codec, the sample
// provider that feeds it to Media Foundation and the encoding properties the
// stream is advertised with. A codec Media Foundation can decode is passed
// through (with a provider that adapts its packets where needed); anything
// else, and everything when the configuration forces decoding, is decoded
// by FFmpeg into 16-bit PCM or NV12. Some subtypes also need the codec's
// extradata as format user data.

module StreamFactory {
  import opened Common

  /** The codec ids the tables name; any other id is OtherCodec, and AV_CODEC_ID_NONE is NoCodec. */
  datatype Codec =
    // audio
    | Aac | Ac3 | Alac | Dts | Eac3 | Flac | Mp1 | Mp2 | Mp3 | Opus
    | PcmF32le | PcmF64le
    | PcmS16be | PcmS16le | PcmS24be | PcmS24le | PcmS32be | PcmS32le | PcmU8
    | TrueHd
    | PcmMulaw | WmaLossless | WmaPro | WmaV1 | WmaV2 | WmaVoice
    // video
    | Av1 | H264 | Hevc | Mjpeg | Mpeg1Video | Mpeg2Video | Mpeg4 | MsMpeg4v3 | Vp8 | Vp9
    | Ayuv | DvVideo | H263 | MsMpeg4v1 | MsMpeg4v2 | Vc1 | Wmv1 | Wmv2 | Wmv3
    // subtitles
    | Ass | Ssa | DvdSubtitle | HdmvPgsSubtitle | Subrip | Text
    | NoCodec
    | OtherCodec(id: int)

  /** The sample provider class a stream gets. */
  datatype ProviderKind =
    | BaseProvider | FlacProvider | AcmProvider | UncompressedAudioProvider
    | Av1Provider | H264Provider | HevcProvider | MpegProvider | VfwProvider | UncompressedVideoProvider
    | SubtitleProvider

  /** The encoding properties: a bare subtype, one of the factory-made audio or video forms, or the empty default. */
  datatype EncodingProperties =
    | WithSubtype(subtype: string)
    | AacAdtsProperties(sampleRate: int, channels: int, bitRate: nat)
    | AacProperties(sampleRate: int, channels: int, bitRate: nat)
    | Mp3Properties(sampleRate: int, channels: int, bitRate: nat)
    | PcmProperties(sampleRate: int, channels: int, bitsPerSample: int)
    | UncompressedProperties(subtype: string, width: int, height: int)
    | EmptyProperties

  /** The stream parameters the tables read. */
  datatype CodecParameters = CodecParameters(
    extradataSize: int,
    sampleRate: int,
    channels: int,
    bitRate: int,
    width: int,
    height: int)

  /** A factory decision: provider, encoding properties, and whether the format user data is set. */
  datatype Choice = Choice(provider: ProviderKind, encProp: EncodingProperties, setFormatUserData: bool)

  /** The audio codecs the audio table lists. */
  const AUDIO_PASSTHROUGH: set<Codec> := {
    Aac, Ac3, Alac, Dts, Eac3, Flac, Mp1, Mp2, Mp3, Opus, PcmF32le, PcmF64le,
    PcmS16be, PcmS16le, PcmS24be, PcmS24le, PcmS32be, PcmS32le, PcmU8, TrueHd,
    PcmMulaw, WmaLossless, WmaPro, WmaV1, WmaV2, WmaVoice}

  /** The audio codecs handed to the ACM wrapper. */
  const ACM_CODECS: set<Codec> := {PcmMulaw, WmaLossless, WmaPro, WmaV1, WmaV2, WmaVoice}

  /** The video codecs the video table lists. */
  const VIDEO_PASSTHROUGH: set<Codec> := {
    Av1, H264, Hevc, Mjpeg, Mpeg1Video, Mpeg2Video, Mpeg4, MsMpeg4v3, Vp8, Vp9,
    Ayuv, DvVideo, H263, MsMpeg4v1, MsMpeg4v2, Vc1, Wmv1, Wmv2, Wmv3}

  /** The video codecs handed to the VFW wrapper. */
  const VFW_CODECS: set<Codec> := {Ayuv, DvVideo, H263, MsMpeg4v1, MsMpeg4v2, Vc1, Wmv1, Wmv2, Wmv3}

  /** The subtitle codecs the subtitle table lists. */
  const SUBTITLE_CODECS: set<Codec> := {Ass, Ssa, DvdSubtitle, HdmvPgsSubtitle, Subrip, Text}

  /** Forcing decode replaces the codec by AV_CODEC_ID_NONE, which no table lists. */
  function Effective(codec: Codec, forceDecode: bool): Codec
  {
    if forceDecode then NoCodec else codec
  }

  /** CreateAudioStream's table. */
  function AudioChoice(codec: Codec, p: CodecParameters): Choice
  {
    match codec
      case Aac =>
        if p.extradataSize == 0 then Choice(BaseProvider, AacAdtsProperties(p.sampleRate, p.channels, ToUint32(p.bitRate)), false)
        else Choice(BaseProvider, AacProperties(p.sampleRate, p.channels, ToUint32(p.bitRate)), false)
      case Ac3 => Choice(BaseProvider, WithSubtype("MFAudioFormat_Dolby_AC3"), false)
      case Alac => Choice(BaseProvider, WithSubtype("MFAudioFormat_ALAC"), true)
      case Dts => Choice(BaseProvider, WithSubtype("MFAudioFormat_DTS_HD"), false)
      case Eac3 => Choice(BaseProvider, WithSubtype("MFAudioFormat_Dolby_DDPlus"), false)
      case Flac => Choice(FlacProvider, WithSubtype("MFAudioFormat_FLAC"), false)
      case Mp1 => Choice(BaseProvider, WithSubtype("MFAudioFormat_MPEG"), false)
      case Mp2 => Choice(BaseProvider, WithSubtype("MFAudioFormat_MPEG"), false)
      case Mp3 => Choice(BaseProvider, Mp3Properties(p.sampleRate, p.channels, ToUint32(p.bitRate)), false)
      case Opus => Choice(BaseProvider, WithSubtype("MFAudioFormat_Opus"), true)
      case PcmF32le => Choice(BaseProvider, WithSubtype("MFAudioFormat_Float"), false)
      case PcmF64le => Choice(BaseProvider, WithSubtype("MFAudioFormat_Float"), false)
      case PcmS16be => Choice(BaseProvider, WithSubtype("MFAudioFormat_PCM"), false)
      case PcmS16le => Choice(BaseProvider, WithSubtype("MFAudioFormat_PCM"), false)
      case PcmS24be => Choice(BaseProvider, WithSubtype("MFAudioFormat_PCM"), false)
      case PcmS24le => Choice(BaseProvider, WithSubtype("MFAudioFormat_PCM"), false)
      case PcmS32be => Choice(BaseProvider, WithSubtype("MFAudioFormat_PCM"), false)
      case PcmS32le => Choice(BaseProvider, WithSubtype("MFAudioFormat_PCM"), false)
      case PcmU8 => Choice(BaseProvider, WithSubtype("MFAudioFormat_PCM"), false)
      case TrueHd => Choice(BaseProvider, WithSubtype("MEDIASUBTYPE_DOLBY_TRUEHD"), false)
      case PcmMulaw => Choice(AcmProvider, EmptyProperties, false)
      case WmaLossless => Choice(AcmProvider, EmptyProperties, false)
      case WmaPro => Choice(AcmProvider, EmptyProperties, false)
      case WmaV1 => Choice(AcmProvider, EmptyProperties, false)
      case WmaV2 => Choice(AcmProvider, EmptyProperties, false)
      case WmaVoice => Choice(AcmProvider, EmptyProperties, false)
      case _ => Choice(UncompressedAudioProvider, PcmProperties(p.sampleRate, p.channels, 16), false)
  }

  /** CreateAudioStream: the table applied to the codec, or to no codec when audio decoding is forced. */
  function CreateAudioStream(codec: Codec, p: CodecParameters, forceAudioDecode: bool): (c: Choice)
    ensures forceAudioDecode ==> c == Choice(UncompressedAudioProvider, PcmProperties(p.sampleRate, p.channels, 16), false)
    ensures c.provider == UncompressedAudioProvider <==> forceAudioDecode || codec !in AUDIO_PASSTHROUGH
    ensures c.provider == UncompressedAudioProvider ==> c.encProp == PcmProperties(p.sampleRate, p.channels, 16)
  {
    AudioChoice(Effective(codec, forceAudioDecode), p)
  }

  /** AAC is advertised as ADTS exactly when it has no extradata (no AudioSpecificConfig), as raw AAC otherwise. */
  lemma AacIsAdtsWithoutExtradata(p: CodecParameters)
    ensures CreateAudioStream(Aac, p, false).encProp.AacAdtsProperties? <==> p.extradataSize == 0
    ensures CreateAudioStream(Aac, p, false).encProp.AacProperties? <==> p.extradataSize != 0
    ensures CreateAudioStream(Aac, p, false).provider == BaseProvider
  {
  }

  /**
   * AAC and MP3 are advertised with the stream's bit rate cast to uint32_t:
   * below 2^32, the bit rate itself when it fits, and a negative (unknown)
   * bit rate wrapped to a large one.
   */
  lemma AdvertisedBitRate(codec: Codec, p: CodecParameters)
    requires codec in {Aac, Mp3}
    ensures var e := CreateAudioStream(codec, p, false).encProp;
      && (e.AacAdtsProperties? || e.AacProperties? || e.Mp3Properties?)
      && e.bitRate == ToUint32(p.bitRate) && e.bitRate < UINT32_MODULUS
      && e.sampleRate == p.sampleRate && e.channels == p.channels
    ensures 0 <= p.bitRate < UINT32_MODULUS ==> CreateAudioStream(codec, p, false).encProp.bitRate == p.bitRate
    ensures p.bitRate == -1 ==> CreateAudioStream(codec, p, false).encProp.bitRate == UINT32_MAX
  {
  }

  /** The ACM wrapper takes exactly the WMA family and mu-law, and FLAC alone gets its own provider. */
  lemma AudioProviderClasses(codec: Codec, p: CodecParameters, force: bool)
    ensures CreateAudioStream(codec, p, force).provider == AcmProvider <==> !force && codec in ACM_CODECS
    ensures CreateAudioStream(codec, p, force).provider == FlacProvider <==> !force && codec == Flac
    ensures CreateAudioStream(codec, p, force).setFormatUserData <==> !force && codec in {Alac, Opus}
  {
  }

  /** CreateVideoStream's table. */
  function VideoChoice(codec: Codec, p: CodecParameters): Choice
  {
    match codec
      case Av1 => Choice(Av1Provider, WithSubtype("MFVideoFormat_AV1"), false)
      case H264 => Choice(H264Provider, WithSubtype("MFVideoFormat_H264"), false)
      case Hevc => Choice(HevcProvider, WithSubtype("MFVideoFormat_HEVC"), false)
      case Mjpeg => Choice(BaseProvider, WithSubtype("MFVideoFormat_MJPG"), false)
      case Mpeg1Video => Choice(MpegProvider, WithSubtype("MFVideoFormat_MPG1"), false)
      case Mpeg2Video => Choice(MpegProvider, WithSubtype("MFVideoFormat_MPEG2"), false)
      case Mpeg4 => Choice(BaseProvider, WithSubtype("MFVideoFormat_MP4V"), true)
      case MsMpeg4v3 => Choice(BaseProvider, WithSubtype("MFVideoFormat_MP43"), false)
      case Vp8 => Choice(BaseProvider, WithSubtype("MFVideoFormat_VP80"), false)
      case Vp9 => Choice(BaseProvider, WithSubtype("MFVideoFormat_VP90"), false)
      case Ayuv => Choice(VfwProvider, EmptyProperties, true)
      case DvVideo => Choice(VfwProvider, EmptyProperties, true)
      case H263 => Choice(VfwProvider, EmptyProperties, true)
      case MsMpeg4v1 => Choice(VfwProvider, EmptyProperties, true)
      case MsMpeg4v2 => Choice(VfwProvider, EmptyProperties, true)
      case Vc1 => Choice(VfwProvider, EmptyProperties, true)
      case Wmv1 => Choice(VfwProvider, EmptyProperties, true)
      case Wmv2 => Choice(VfwProvider, EmptyProperties, true)
      case Wmv3 => Choice(VfwProvider, EmptyProperties, true)
      case _ => Choice(UncompressedVideoProvider, UncompressedProperties("NV12", p.width, p.height), false)
  }

  /** CreateVideoStream: the table applied to the codec, or to no codec when video decoding is forced. */
  function CreateVideoStream(codec: Codec, p: CodecParameters, forceVideoDecode: bool): (c: Choice)
    ensures forceVideoDecode ==> c == Choice(UncompressedVideoProvider, UncompressedProperties("NV12", p.width, p.height), false)
    ensures c.provider == UncompressedVideoProvider <==> forceVideoDecode || codec !in VIDEO_PASSTHROUGH
    ensures c.provider == UncompressedVideoProvider ==> c.encProp == UncompressedProperties("NV12", p.width, p.height)
  {
    VideoChoice(Effective(codec, forceVideoDecode), p)
  }

  /** The VFW wrapper takes exactly the legacy codecs; format user data goes with MPEG-4 part 2 and those codecs. */
  lemma VideoProviderClasses(codec: Codec, p: CodecParameters, force: bool)
    ensures CreateVideoStream(codec, p, force).provider == VfwProvider <==> !force && codec in VFW_CODECS
    ensures CreateVideoStream(codec, p, force).setFormatUserData <==> !force && (codec == Mpeg4 || codec in VFW_CODECS)
    ensures CreateVideoStream(codec, p, force).provider == H264Provider <==> !force && codec == H264
    ensures CreateVideoStream(codec, p, force).provider == HevcProvider <==> !force && codec == Hevc
  {
  }

  /** CreateSubtitleStream: the listed subtitle codecs, or MF_E_INVALIDMEDIATYPE. */
  function CreateSubtitleStream(codec: Codec): (r: Result<Choice>)
    ensures r.Err? <==> codec !in SUBTITLE_CODECS
    ensures r.Err? ==> r.error == MfEInvalidMediaType
    ensures r.Ok? ==> r.value.provider == SubtitleProvider
    ensures r.Ok? ==> (r.value.setFormatUserData <==> codec in {Ass, Ssa, DvdSubtitle})
  {
    match codec
      case Ass => Ok(Choice(SubtitleProvider, WithSubtype("MFSubtitleFormat_SSA"), true))
      case Ssa => Ok(Choice(SubtitleProvider, WithSubtype("MFSubtitleFormat_SSA"), true))
      case DvdSubtitle => Ok(Choice(SubtitleProvider, WithSubtype("VobSub"), true))
      case HdmvPgsSubtitle => Ok(Choice(SubtitleProvider, WithSubtype("PGS"), false))
      case Subrip => Ok(Choice(SubtitleProvider, WithSubtype("MFSubtitleFormat_SRT"), false))
      case Text => Ok(Choice(SubtitleProvider, WithSubtype("MFSubtitleFormat_SRT"), false))
      case _ => Err(MfEInvalidMediaType)
  }

  /** A passthrough provider is never chosen under forced decoding, and the decoders are never chosen for a listed codec. */
  lemma PassthroughOnlyWithoutForce(codec: Codec, p: CodecParameters, force: bool)
    ensures CreateAudioStream(codec, p, force).provider != UncompressedAudioProvider ==> !force && codec in AUDIO_PASSTHROUGH
    ensures CreateVideoStream(codec, p, force).provider != UncompressedVideoProvider ==> !force && codec in VIDEO_PASSTHROUGH
  {
  }
}
