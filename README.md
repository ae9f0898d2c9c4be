# FFmpegInterop in Dafny

A verified model of the sequential core of FFmpegInterop. This is the
library that feeds packets demuxed by FFmpeg to a Windows
`MediaStreamSource`. It either passes compressed samples through to Media
Foundation or decodes them with FFmpeg first. Everything the library hands
to FFmpeg or to Windows is an input of the model: packets, stream records
and extradata become byte sequences and small records, and the result of
each foreign call becomes a parameter.

The model has one module per source file:

- `BitstreamReading` (`bitstream_reader.dfy`) covers `BitstreamReader`. It
  is a class whose cursor fields advance in `SkipN`, `ReadN` and the
  Exp-Golomb readers of ITU-T H.264 sections 9.1 and 9.1.1. Each method is
  proved against the bit string of the buffer.
- `Nalu` (`nalu.dfy`) covers the NAL-unit framing of `NALUSampleProvider`:
  - the length-prefixed format of the configuration records in ISO/IEC
    14496-15;
  - the start-code scan of the Annex B byte stream (ITU-T H.264 section
    B.1);
  - `TransformSample`, which rewrites a sample into start-code format;
  - `AnnexBParser`.
- `H264` (`h264.dfy`) covers the AVCDecoderConfigurationRecord of ISO/IEC
  14496-15 section 5.3.3.1 (`AVCCodecPrivate`, `ParseParameterSets`), the
  H.264 `TransformSample`, and the SPS header.
- `Hevc` (`hevc.dfy`) covers the choice between an hvcC record (ISO/IEC
  14496-15 section 8.3.3.1) and Annex B extradata, and `HEVCConfigParser`.
- `H264Avc` (`h264_avc.dfy`) and `HevcLegacy` (`hevc_legacy.dfy`) cover the
  older providers. These write Annex B byte streams into a data writer,
  which is modelled by the bytes it receives.
- `FfmpegMss` (`ffmpeg_mss.dfy`) covers the early media stream source. It
  keeps two fixed ring buffers of 320 packets (arrays with head and count),
  rewrites H.264 packets to Annex B, and dispatches sample requests.
- `SampleProviding` (`sample_provider.dfy`) and `MediaSampleProviding`
  (`media_sample_provider.dfy`) cover the per-stream provider state. It
  includes:
  - select/deselect and enable/disable;
  - the packet queue, flush and seek;
  - the back-fill of missing timestamps;
  - the discontinuity flag;
  - the bounded skipping of broken packets.
- `FfmpegReading` (`ffmpeg_reader.dfy`) covers the routing of each packet
  read to its stream's provider.
- `UncompressedAudioLegacy` (`uncompressed_audio_legacy.dfy`) covers the
  audio sample that concatenates decoded packets up to 50 ms.
- `UncompressedAudio` (`uncompressed_audio.dfy`) covers the decoded-audio
  duration arithmetic and the lazy creation and release of the resampler.
- `CodecSamples` (`codec_samples.dfy`) covers two providers:
  - the AV1 provider, which prepends the configuration OBUs;
  - the FLAC provider, which sends a STREAMINFO header (RFC 9639 sections
    8.1 and 8.2) after a discontinuity.
- `SubtitleSampling` (`subtitle_sample_provider.dfy`) covers the deferred
  subtitle request.
- `SubtitleCues` (`subtitles_provider.dfy`) covers the older subtitle
  provider: cue deduplication by packet position, markup stripping, and the
  pending-cue rule.
- `StreamFactory` (`stream_factory.dfy`) covers the tables from codec and
  force-decode flags to a provider kind and an output subtype.
- `InteropMss` (`interop_mss.dfy`) covers the newer media stream source:
  - stream selection at open time;
  - seekability;
  - the seek on Starting;
  - stream switching and closing.
- `LegacyMss` (`legacy_interop_mss.dfy`) covers the older media stream
  source:
  - the `Create*` entry points;
  - the options dictionary;
  - the audio and video stream descriptors;
  - the thumbnail;
  - the seek and the routing of sample requests.
- `Utility` (`utility.dfy`) covers:
  - the GUID ordering;
  - the AVERROR to HRESULT mapping;
  - the data and size invariants of the AVImage and AVSamples owners.
- `Common` (`common.dfy`) holds the shared vocabulary: bytes, HRESULT codes,
  results, packets, big-endian numbers and time-base conversion.

Classes model the objects whose fields the source updates in place: the
bit reader, the providers, the ring queues, the media stream sources and
the buffer owners. Functions model the pure tables and byte transforms.
Every method that loops is proved against a specification function. Lemmas
prove the properties of that function: round trips against an encoder,
bounds, FIFO order, and the error cases.

## Model

| member | source | states |
|---|---|---|
| BitstreamReading.ValueOfAppend | FFmpegInterop/BitstreamReader.cpp:74-75 | reading a bit range in two pieces gives the first piece's value shifted left by the second piece's width plus the second value, which is what ReadN's shift-then-OR accumulates |
| BitstreamReading.ChunkValue | FFmpegInterop/BitstreamReader.cpp:71-75 | the shift and mask ReadN applies to the current byte extract exactly the next readSize bits of the bit string |
| BitstreamReading.UExpGolombSkip | FFmpegInterop/BitstreamReader.cpp:103-107 | after k leading zero bits, reading ue(v) continues exactly as the prefix loop does after consuming them |
| BitstreamReading.UExpGolombOfPrefix | FFmpegInterop/BitstreamReader.cpp:101-110 | k zero bits, a one bit and k info bits worth x read as 2^k - 1 + x and consume 2k + 1 bits |
| BitstreamReading.UExpGolombDecodes | FFmpegInterop/BitstreamReader.cpp:101-110 | the ue(v) code of k zeros, a one and the k-bit x decodes to 2^k - 1 + x whatever bits follow |
| BitstreamReading.UExpGolombRoundTrip | FFmpegInterop/BitstreamReader.cpp:101-110 | decoding the ue(v) encoding of any code number gives it back and consumes exactly the encoding |
| BitstreamReading.Log2Below33 | FFmpegInterop/BitstreamReader.cpp:106 | a code number below 2^33 - 1 has at most 32 leading zero bits, so the 32-zero limit admits every such code |
| BitstreamReading.SignedOfCodeRoundTrip | FFmpegInterop/BitstreamReader.cpp:112-123 | the se(v) mapping (even codes to -c/2, odd codes to c/2 + 1) is injective: its inverse gives the code back |
| BitstreamReading.CodeOfSignedRoundTrip | FFmpegInterop/BitstreamReader.cpp:112-123 | the se(v) mapping is onto: every signed value is the image of its code number |
| BitstreamReading.SkipIndicesAsWritten | FFmpegInterop/BitstreamReader.cpp:50-58 | SkipN's cursor update as written advances the bit position by exactly n |
| BitstreamReading.SkipAsWrittenLeavesBitIndexOutOfRange | FFmpegInterop/BitstreamReader.cpp:52-58 | from bit 5, skipping 4 bits as written leaves a bit index of 9, outside [0, 8) |
| BitstreamReading.SkipIndices | FFmpegInterop/BitstreamReader.cpp:50-58 | the carried cursor update advances the bit position by exactly n and keeps the bit index below 8 |
| BitstreamReading.ZerosBeforeShift | FFmpegInterop/BitstreamReader.cpp:92-96 | the zero bits counted from a position are those already skipped plus those counted from after them, and a terminating one bit exists from both positions or from neither |
| BitstreamReading.BitstreamReader.constructor | FFmpegInterop/BitstreamReader.cpp:26-31 | a new reader is at bit 0 of the given buffer |
| BitstreamReading.BitstreamReader.Create | FFmpegInterop/BitstreamReader.cpp:30 | a missing buffer is refused with E_INVALIDARG, and only a missing one |
| BitstreamReading.BitstreamReader.BitsRemaining | FFmpegInterop/BitstreamReader.cpp:33-43 | the bits left are the buffer's bits minus the cursor position, and none once the byte index reaches the end |
| BitstreamReading.BitstreamReader.SkipN | FFmpegInterop/BitstreamReader.cpp:45-59 | skipping more bits than remain fails with MF_E_INVALID_POSITION and leaves the cursor; otherwise the position advances by exactly n |
| BitstreamReading.BitstreamReader.ReadChunk | FFmpegInterop/BitstreamReader.cpp:71-84 | one pass of ReadN's loop reads between 1 and the remaining count of bits and the accumulated result is the value of all bits read so far |
| BitstreamReading.BitstreamReader.ReadN | FFmpegInterop/BitstreamReader.cpp:61-88 | reading more bits than remain fails with MF_E_INVALID_POSITION and leaves the cursor; otherwise the result is the value of the next n bits, most significant first, below 2^n, and the position advances by n |
| BitstreamReading.BitstreamReader.Read1 | FFmpegInterop/BitstreamReader.h:31 | the flag is the next bit, read when and only when one remains |
| BitstreamReading.BitstreamReader.ReadBits | FFmpegInterop/BitstreamReader.h:32-34 | Read8, Read16 and Read32 return the value of the next 8, 16 or 32 bits, succeeding exactly when that many remain |
| BitstreamReading.BitstreamReader.ReadLeadingZeros | FFmpegInterop/BitstreamReader.cpp:103-107 | the prefix loop reads up to and including the first one bit, at most 32 zeros; its failures are those of ue(v) at the start position |
| BitstreamReading.BitstreamReader.ReadUExpGolomb | FFmpegInterop/BitstreamReader.cpp:101-110 | the method agrees with the ue(v) decoding of the bit string at the start position, in value, end position and error |
| BitstreamReading.BitstreamReader.ReadSExpGolomb | FFmpegInterop/BitstreamReader.cpp:112-123 | the result's code number is the ue(v) decoding at the start position, and errors are those of ue(v) |
| BitstreamReading.BitstreamReader.CountLeadingZeros | FFmpegInterop/BitstreamReader.cpp:92-96 | the loop fails exactly when no one bit follows; otherwise it consumes the zeros and the one bit, and its 8-bit counter holds the zero count modulo 256 |
| BitstreamReading.BitstreamReader.SkipExpGolomb | FFmpegInterop/BitstreamReader.cpp:90-99 | the code's zero prefix and one bit are consumed, then as many bits as the 8-bit counter holds; the skip fails with MF_E_INVALID_POSITION when no one bit follows or too few bits remain |
| Nalu.GetAvcNaluLength | FFmpegInterop/NALUSampleProvider.cpp:48-78 | the unit length is the big-endian value of the first 1 to 4 bytes; MF_E_INVALID_FILE_FORMAT exactly when the size is not 1 to 4, the prefix does not fit, or prefix plus unit overrun the data |
| Nalu.AvcNaluLengthOfPrefixed | FFmpegInterop/NALUSampleProvider.cpp:48-78 | a payload written behind its own k-byte length prefix reads back as its length (round trip with ToBigEndian) |
| Nalu.AvcNaluLengthOfPrefix | FFmpegInterop/NALUSampleProvider.cpp:48-78 | any prefix whose big-endian value is the payload size yields that size, whatever follows |
| Nalu.AvcNaluLengthAsWrittenWraps | FFmpegInterop/NALUSampleProvider.cpp:75 | as written, 4 + 0xFFFFFFFF wraps in 32 bits and a 4-byte buffer announcing a 4 GiB unit is accepted; the corrected check rejects it |
| Nalu.StartCodeEndFromIsFirst | FFmpegInterop/NALUSampleProvider.cpp:35-45 | the scan returns the first offset at which a start code ends, or the data size when there is none |
| Nalu.AnnexBNaluLengthMeaning | FFmpegInterop/NALUSampleProvider.cpp:28-46 | success iff the data begins with a start code, else MF_E_INVALID_FILE_FORMAT; the unit, start code included, runs up to the first start code at offset 4 or later that ends before the end of the data, or to the end of the data, and is at least 4 bytes long |
| Nalu.AnnexBNaluLengthAsWrittenRejectsStartCode | FFmpegInterop/NALUSampleProvider.cpp:32 | as written, every buffer that begins with a start code is refused, contrary to the comment at line 30; the corrected test accepts it |
| Nalu.AnnexBNaluLengthPastStartCodeSplitsUnit | FFmpegInterop/NALUSampleProvider.cpp:40 | as written the length runs 4 bytes past the next start code, so on two 8-byte units the next scan begins inside the second and is refused; corrected, the buffer splits into the two units |
| Nalu.GetAnnexBNaluLength | FFmpegInterop/NALUSampleProvider.cpp:28-46 | the scan loop, returning the offset where the next start code begins, computes AnnexBNaluLength |
| Nalu.AnnexBNaluLengthsStep | FFmpegInterop/NALUSampleProvider.cpp:234-242 | one round of GetSpsPpsData's loop records a positive length that stays inside the data |
| Nalu.AnnexBNaluLengthsPartition | FFmpegInterop/NALUSampleProvider.cpp:229-245 | the recorded lengths sum to the data size and each is at least 4 |
| Nalu.AnnexBNaluLengthsSucceed | FFmpegInterop/NALUSampleProvider.cpp:229-245 | the scan from an offset succeeds exactly when the data is used up there or begins with a start code there |
| Nalu.AnnexBParser.constructor | FFmpegInterop/NALUSampleProvider.cpp:219-227 | a parser holds the data it was given |
| Nalu.AnnexBParser.Create | FFmpegInterop/NALUSampleProvider.cpp:219-227 | MF_E_INVALID_FILE_FORMAT iff the data is shorter than 4 bytes or does not begin with a start code |
| Nalu.AnnexBParser.GetSpsPpsData | FFmpegInterop/NALUSampleProvider.cpp:229-245 | returns the data unchanged and the NAL unit lengths of the scan, or the scan's error, which only data not beginning with a start code meets |
| Nalu.TransformSampleLengths | FFmpegInterop/NALUSampleProvider.cpp:121-217 | on a new buffer the recorded NAL unit lengths add up to the buffer size |
| Nalu.TransformSampleInsertsOnce | FFmpegInterop/NALUSampleProvider.cpp:164-207 | on a key frame with parameter sets they appear exactly once (before the first non-AUD unit or at the end); otherwise the sample is the plain framing |
| Nalu.TransformLengthsDescribeBytes | FFmpegInterop/NALUSampleProvider.cpp:151-196 | from any offset, the loop's recorded lengths describe its output bytes |
| Nalu.TransformInsertsOnce | FFmpegInterop/NALUSampleProvider.cpp:164-177 | the parameter sets are inserted at most once: with them pending the output is the plain output, longer by their size exactly when inserted |
| Nalu.NaluSampleProvider.constructor | FFmpegInterop/NALUSampleProvider.h:42-45 | a provider starts in Annex B mode with no parameter sets |
| Nalu.NaluSampleProvider.NextNaluLength | FFmpegInterop/NALUSampleProvider.cpp:153-162 | the next unit's payload length in the provider's format: the start-code unit less its start code, or the value of the length prefix |
| Nalu.StampStartCode | FFmpegInterop/NALUSampleProvider.cpp:186-190 | the four bytes at the offset become a start code and nothing else changes |
| Nalu.NaluSampleProvider.TransformSample | FFmpegInterop/NALUSampleProvider.cpp:121-217 | the result is TransformSpec of the packet; in place, the packet array holds the returned sample |
| H264.ReadNaluLength | FFmpegInterop/H264SampleProvider.cpp:30-51 | succeeds iff the size is 1 to 4 and the data holds that many bytes; otherwise MF_E_INVALID_FILE_FORMAT |
| H264.ReadNaluLengthIsBigEndian | FFmpegInterop/H264SampleProvider.cpp:34-47 | the value read is the big-endian number of the prefix bytes |
| H264.ReadNaluLengthOfPrefixed | FFmpegInterop/H264SampleProvider.cpp:34-47 | a value written as a k-byte big-endian prefix reads back (round trip) |
| H264.ParameterSetsRoundTrip | FFmpegInterop/H264SampleProvider.cpp:217-245 | reading encoded parameter sets yields each behind a start code, with length 4 + payload, and consumes exactly their encoding |
| H264.ParameterSetsLengths | FFmpegInterop/H264SampleProvider.cpp:228-244 | the recorded lengths sum to the converted bytes and no more than the data is read |
| H264.NaluLengthSizeAsWrittenIsZeroOrFour | FFmpegInterop/H264SampleProvider.cpp:204 | as written the length size is 0 or 4 whatever the low bits say (0xFD gives 4 instead of 2, 0xFB gives 0 instead of 4) |
| H264.NaluLengthSizeFieldRoundTrip | FFmpegInterop/H264SampleProvider.cpp:204 | the corrected size (low two bits plus one) reads back every size 1 to 4 a record can state |
| H264.AvcConfigRoundTrip | FFmpegInterop/H264SampleProvider.cpp:194-215 | parsing an encoded AVCDecoderConfigurationRecord gives back its profile, level, length size and parameter sets in start-code form |
| H264.AvcConfigLengths | FFmpegInterop/H264SampleProvider.cpp:194-215 | a parsed record's parameter-set lengths describe its parameter-set bytes, and its length size is 1 to 4 |
| H264.AvcCodecPrivate.constructor | FFmpegInterop/H264SampleProvider.cpp:201-204 | the record's fields are set and the parameter-set buffers start empty |
| H264.AvcCodecPrivate.ParseParameterSets | FFmpegInterop/H264SampleProvider.cpp:217-245 | appends the sets read to the buffer and lengths and returns the bytes read, or fails as ParameterSets does, keeping the other fields |
| H264.AvcCodecPrivate.Create | FFmpegInterop/H264SampleProvider.cpp:194-215 | fails iff ParseAvcConfig fails (missing, shorter than the minimum, version not 1, a set overrunning); otherwise holds the parsed record |
| H264.FramesRoundTrip | FFmpegInterop/H264SampleProvider.cpp:132-182 | a sample of units behind k-byte lengths frames back to the same units behind start codes |
| H264.FramesLengthsDescribeBytes | FFmpegInterop/H264SampleProvider.cpp:132-182 | the recorded lengths sum to the framed bytes |
| H264.FramesConsumeSample | FFmpegInterop/H264SampleProvider.cpp:132-182 | without parameter sets, the sample is consumed exactly and each unit grows by 4 - k bytes |
| H264.FramesKeyFrame | FFmpegInterop/H264SampleProvider.cpp:137-179 | a key frame is the plain framing with the parameter sets before the first unit, or right behind it when that unit is an AUD |
| H264.StampOverwrites | FFmpegInterop/H264SampleProvider.cpp:160-164 | in place, the four bytes at the unit's offset become a start code |
| H264.InPlaceMatchesBuffer | FFmpegInterop/H264SampleProvider.cpp:153-164 | with 4-byte prefixes, stamping in place gives the same bytes and lengths as writing a new buffer |
| H264.InPlaceIsTransparent | FFmpegInterop/H264SampleProvider.cpp:100-192 | with the corrected choice, rewriting in place never changes the sample produced |
| H264.TransformRoundTrip | FFmpegInterop/H264SampleProvider.cpp:100-192 | a non-key sample laid out with the configured length size comes out as its units behind start codes, one length each |
| H264.TransformKeyFrame | FFmpegInterop/H264SampleProvider.cpp:130-179 | a key frame is the non-key transform with the parameter sets and their lengths inserted once |
| H264.TransformLengthsDescribeBuffer | FFmpegInterop/H264SampleProvider.cpp:100-192 | the recorded NAL unit lengths add up to the sample size |
| H264.InPlaceAsWrittenLosesPayload | FFmpegInterop/H264SampleProvider.cpp:104-105 | as written, a 2-byte-prefixed non-key sample is stamped in place and loses payload bytes; the corrected choice writes a new buffer |
| H264.UnitOverrunCheckWraps | FFmpegInterop/H264SampleProvider.cpp:135 | as written, a length of 0xFFFFFFFF in a 4-byte sample passes the wrapped bound check; the model refuses it |
| H264.H264SampleProvider.constructor | FFmpegInterop/H264SampleProvider.cpp:54-59 | the provider keeps its parsed codec private data |
| H264.H264SampleProvider.Create | FFmpegInterop/H264SampleProvider.cpp:54-59 | creation fails exactly as parsing the extradata fails |
| H264.H264SampleProvider.TransformSample | FFmpegInterop/H264SampleProvider.cpp:100-192 | the result is TransformSpec; a new buffer leaves the packet untouched, in place the packet holds the result |
| H264.ParseSpsHeader | FFmpegInterop/H264SampleProvider.cpp:247-256 | succeeds iff the set is present with at least 3 bytes; otherwise MF_E_INVALID_FILE_FORMAT |
| H264.SpsHeaderRoundTrip | FFmpegInterop/H264SampleProvider.cpp:252-255 | profile_idc and constraint_set1_flag read back, whatever the other flags and bytes |
| Hevc.NaluLengthOfUint16 | FFmpegInterop/HEVCSampleProvider.cpp:102 | a unit's 2-byte length read through GetAVCNaluLength is the payload size |
| Hevc.WalkUnits | FFmpegInterop/HEVCSampleProvider.cpp:99-115 | the units of one array are read in turn and framed with start codes exactly when the array is copied |
| Hevc.WalkArray | FFmpegInterop/HEVCSampleProvider.cpp:84-115 | one whole array is read: header, count and units, copied iff its type is VPS, SPS or PPS |
| Hevc.WalkRoundTrip | FFmpegInterop/HEVCSampleProvider.cpp:80-118 | an encoded run of arrays reads back as exactly the VPS, SPS and PPS units, framed, with their lengths, and nothing of the other arrays |
| Hevc.ParseHvcConfigRoundTrip | FFmpegInterop/HEVCSampleProvider.cpp:59-119 | a version-1 hvcC record parses to its parameter-set units in start-code form, whatever follows |
| Hevc.ParseHvcConfigTruncated | FFmpegInterop/HEVCSampleProvider.cpp:85 | an array header that does not leave a byte behind its count is refused with MF_E_INVALID_FORMAT |
| Hevc.NaluLengthSizeAsWrittenMisreads | FFmpegInterop/HEVCSampleProvider.cpp:71 | as written the length size is 0 or 4 whatever the record declares; the corrected size is the declared one |
| Hevc.HevcFormatOfRecord | FFmpegInterop/HEVCSampleProvider.cpp:35-43 | with the corrected size, an hvcC record leaves Annex B mode with its declared 1-to-4-byte lengths and its parameter sets |
| Hevc.HevcFormatOfAnnexB | FFmpegInterop/HEVCSampleProvider.cpp:44-48 | other extradata is refused with MF_E_INVALID_FILE_FORMAT exactly when it does not begin with a start code; otherwise it is kept as it is, with unit lengths that add up to its size |
| Hevc.HevcConfigParser.constructor | FFmpegInterop/HEVCSampleProvider.cpp:59-67 | the parser holds its record |
| Hevc.HevcConfigParser.Create | FFmpegInterop/HEVCSampleProvider.cpp:59-67 | MF_E_INVALID_FILE_FORMAT iff the record is shorter than 23 bytes or its version is not 1 |
| Hevc.HevcConfigParser.GetNaluLengthSize | FFmpegInterop/HEVCSampleProvider.cpp:69-72 | corrected: 1 to 4, one more than the low two bits of byte 21 |
| Hevc.HevcConfigParser.ReadUnits | FFmpegInterop/HEVCSampleProvider.cpp:99-115 | the inner loop appends exactly the array's framed units, or fails as the walk does |
| Hevc.HevcConfigParser.GetSpsPpsData | FFmpegInterop/HEVCSampleProvider.cpp:74-119 | the nested loops compute ParseHvcConfig |
| Hevc.HevcSampleProvider.constructor | FFmpegInterop/HEVCSampleProvider.cpp:28-30 | the provider wraps its NAL-unit provider |
| Hevc.HevcSampleProvider.Create | FFmpegInterop/HEVCSampleProvider.cpp:28-50 | creation fails iff HevcFormat fails; otherwise the NAL-unit provider's format is HevcFormat of the extradata |
| H264Avc.OverrunCheck | FFmpegInterop/H264AVCSampleProvider.cpp:151 | the wrapped uint32 sum compared with the packet size, or the explicit overflow test, holds exactly when the unit runs past the packet |
| H264Avc.NalUnitsAreFrames | FFmpegInterop/H264AVCSampleProvider.cpp:131-169 | WriteNALPacket writes the same units, and fails in the same cases, as the newer TransformSample with 4-byte lengths |
| H264Avc.UnitOverruns | FFmpegInterop/H264AVCSampleProvider.cpp:150-155 | a unit running past the packet fails with E_FAIL |
| H264Avc.NalPacketEmpty | FFmpegInterop/H264AVCSampleProvider.cpp:137-144 | an empty packet fails without writing, since the do-while body runs once |
| H264Avc.NalPacketRoundTrip | FFmpegInterop/H264AVCSampleProvider.cpp:131-169 | a packet of units behind 4-byte lengths is written as the same units behind start codes |
| H264Avc.NalPacketIsStamped | FFmpegInterop/H264AVCSampleProvider.cpp:131-169 | a successful write is the packet with every length overwritten by a start code, so it is as long as the packet |
| H264Avc.ExtradataTestAsWrittenAdmits | FFmpegInterop/H264AVCSampleProvider.cpp:68 | as written a 3-byte extradata block, and a null pointer with size 8, both pass the guard; the corrected guard refuses both |
| H264Avc.SpsPpsBufferRoundTrip | FFmpegInterop/H264AVCSampleProvider.cpp:56-128 | for a record with SPS and PPS under 256 bytes, the buffer is the SPS and the PPS, each behind a start code |
| H264Avc.SpsPpsBufferTruncatedPps | FFmpegInterop/H264AVCSampleProvider.cpp:97-125 | a record ending inside the PPS fails after the SPS was written |
| H264Avc.AvPacketWriteRoundTrip | FFmpegInterop/H264AVCSampleProvider.cpp:36-54 | the sample's units are written behind start codes, preceded by the SPS and PPS exactly on a key frame |
| H264Avc.AvPacketWriteWithoutContext | FFmpegInterop/H264AVCSampleProvider.cpp:62-65 | without a codec context a key frame fails writing nothing; other frames are unaffected |
| H264Avc.H264AvcSampleProvider.constructor | FFmpegInterop/H264AVCSampleProvider.cpp:31-34 | the provider keeps the codec context's presence and extradata |
| H264Avc.H264AvcSampleProvider.WriteNalPacket | FFmpegInterop/H264AVCSampleProvider.cpp:131-169 | the do-while loop writes NalPacket of the packet and returns its HRESULT |
| H264Avc.H264AvcSampleProvider.GetSpsAndPpsBuffer | FFmpegInterop/H264AVCSampleProvider.cpp:56-128 | writes SpsPpsBuffer (with the corrected guard) and returns its HRESULT |
| H264Avc.H264AvcSampleProvider.WriteAvPacketToStream | FFmpegInterop/H264AVCSampleProvider.cpp:36-54 | writes AvPacketWrite: the parameter sets on a key frame, the packet only if they succeeded |
| H264Avc.AvPacketWriteResult | FFmpegInterop/H264AVCSampleProvider.cpp:36-54 | WriteAVPacketToStream returns S_OK or E_FAIL and no other code |
| H264Avc.NalUnitsResult | FFmpegInterop/H264AVCSampleProvider.cpp:131-169 | WriteNALPacket returns S_OK or E_FAIL and no other code |
| HevcLegacy.ReadNalLength | FFmpegInterop/Source/HEVCSampleProvider.cpp:183-202 | the result is a 32-bit signed value, and -1 for any size other than 1 to 4 |
| HevcLegacy.ReadNalLengthIsBigEndian | FFmpegInterop/Source/HEVCSampleProvider.cpp:183-202 | read as 32 bits the length is the big-endian value of its bytes; it is negative exactly for a 4-byte length whose first byte is 0x80 or more |
| HevcLegacy.ReadNalLengthAgrees | FFmpegInterop/Source/HEVCSampleProvider.cpp:183-202 | the same length, as 32 bits, as the newer sources' ReadNaluLength |
| HevcLegacy.LegacyUnitsAreFrames | FFmpegInterop/Source/HEVCSampleProvider.cpp:141-181 | for sizes 1 to 4, WriteNALPacket succeeds exactly when the newer framing loop does, writing the same bytes |
| HevcLegacy.LegacyUnitsOverrun | FFmpegInterop/Source/HEVCSampleProvider.cpp:161-172 | a unit running past the packet fails after its start code was written |
| HevcLegacy.LegacyNalPacketRoundTrip | FFmpegInterop/Source/HEVCSampleProvider.cpp:141-181 | a packet of units behind k-byte lengths is written as the same units behind start codes |
| HevcLegacy.LegacyMatchesAvc | FFmpegInterop/Source/HEVCSampleProvider.cpp:141-181 | with 4-byte lengths it writes what the H.264 AVC provider writes, except for one dangling start code on an overrun |
| HevcLegacy.DanglingStartCode | FFmpegInterop/Source/HEVCSampleProvider.cpp:161-172 | a unit claiming 9 bytes with 2 present fails in both writers; only the legacy one has written a start code |
| HevcLegacy.LegacyWalk | FFmpegInterop/Source/HEVCSampleProvider.cpp:83-107 | the hvcC walk succeeds or fails with E_FAIL; a unit length read past the record fails, and an array header read past it reads the zeroed padding |
| HevcLegacy.LegacyWalkPastRecord | FFmpegInterop/Source/HEVCSampleProvider.cpp:83-86 | once the record is used up, every further array header reads a zero unit count, so the walk ends with S_OK writing nothing more |
| HevcLegacy.LegacyPlain | FFmpegInterop/Source/HEVCSampleProvider.cpp:110-133 | the loop over length-prefixed extradata succeeds or fails with E_FAIL |
| HevcLegacy.NegativeLengthAdmittedAsWritten | FFmpegInterop/Source/HEVCSampleProvider.cpp:116-120 | as written a length of 0x80000000 reads negative and passes the check with one byte left; read unsigned, the unit is refused |
| HevcLegacy.LegacyExtradata | FFmpegInterop/Source/HEVCSampleProvider.cpp:56-138 | the length size is set iff the extradata has at least 4 bytes, and then to 1 to 4; a failure before that writes nothing |
| HevcLegacy.LegacyWalkRoundTrip | FFmpegInterop/Source/HEVCSampleProvider.cpp:83-107 | the arrays are written as all their units behind start codes, whatever their type |
| HevcLegacy.LegacyExtradataOfRecord | FFmpegInterop/Source/HEVCSampleProvider.cpp:74-108 | an hvcC record sets the length size from byte 21 and writes every unit of its arrays |
| HevcLegacy.LegacyMatchesConfigParser | FFmpegInterop/Source/HEVCSampleProvider.cpp:74-108 | on a record holding only VPS, SPS and PPS arrays, it writes what the newer HEVCConfigParser produces |
| HevcLegacy.LegacyPlainRoundTrip | FFmpegInterop/Source/HEVCSampleProvider.cpp:110-133 | units behind 4-byte lengths are written behind start codes, when the last unit is not empty |
| HevcLegacy.LegacyExtradataOfUnits | FFmpegInterop/Source/HEVCSampleProvider.cpp:109-134 | length-prefixed extradata not taken for hvcC sets the length size to 4 and is written behind start codes |
| HevcLegacy.StreamAfterExtradata | FFmpegInterop/Source/HEVCSampleProvider.cpp:36-54 | once the extradata has been sent, every packet is written on its own |
| HevcLegacy.ExtradataSentOnce | FFmpegInterop/Source/HEVCSampleProvider.cpp:39-44 | the extradata is written exactly once, before the first packet (or instead of it when it fails); later packets use the length size it set |
| HevcLegacy.LegacyHevcSampleProvider.constructor | FFmpegInterop/Source/HEVCSampleProvider.cpp:24-30 | the extradata has not been sent, with the given length size |
| HevcLegacy.LegacyHevcSampleProvider.WriteAvPacketToStream | FFmpegInterop/Source/HEVCSampleProvider.cpp:36-54 | the new state and output are PacketWrite of the old state |
| HevcLegacy.LegacyHevcSampleProvider.GetSpsAndPpsBuffer | FFmpegInterop/Source/HEVCSampleProvider.cpp:56-138 | writes LegacyExtradata's bytes and sets the length size it chooses, leaving the sent flag |
| HevcLegacy.LegacyHevcSampleProvider.WriteNalPacket | FFmpegInterop/Source/HEVCSampleProvider.cpp:141-181 | the do-while loop writes LegacyNalPacket with the length size in force |
| HevcLegacy.WriteHvcArrays | FFmpegInterop/Source/HEVCSampleProvider.cpp:83-107 | the outer loop writes LegacyWalk of the arrays |
| HevcLegacy.WriteHvcUnits | FFmpegInterop/Source/HEVCSampleProvider.cpp:88-106 | the inner loop writes one array's units or fails as the walk does |
| HevcLegacy.WritePlainUnits | FFmpegInterop/Source/HEVCSampleProvider.cpp:112-133 | the while loop writes LegacyPlain of the extradata |
| FfmpegMss.Enqueue | FFMPEGMediaStreamSource/FFMPEGMediaStreamSource/FFMPEGMediaStreamSource.Shared/FFMPEG.cpp:368-381 | a push appends the packet when fewer than 320 are queued, and otherwise leaves the queue as it is |
| FfmpegMss.Dequeue | FFMPEGMediaStreamSource/FFMPEGMediaStreamSource/FFMPEGMediaStreamSource.Shared/FFMPEG.cpp:383-400 | a pop takes the oldest packet, or yields an empty packet and no change when the queue is empty |
| FfmpegMss.Replay | FFMPEGMediaStreamSource/FFMPEGMediaStreamSource/FFMPEGMediaStreamSource.Shared/FFMPEG.cpp:368-400 | over any run of pushes and pops, packets leave in the order they were accepted, none is lost, and at most 320 are held |
| FfmpegMss.PushesAccepted | FFMPEGMediaStreamSource/FFMPEGMediaStreamSource/FFMPEGMediaStreamSource.Shared/FFMPEG.cpp:372-376 | while there is room every pushed packet is accepted and kept in order |
| FfmpegMss.PushesDropped | FFMPEGMediaStreamSource/FFMPEGMediaStreamSource/FFMPEGMediaStreamSource.Shared/FFMPEG.cpp:377-380 | pushing onto a full buffer changes nothing |
| FfmpegMss.PacketQueue.constructor | FFMPEGMediaStreamSource/FFMPEGMediaStreamSource/FFMPEGMediaStreamSource.Shared/FFMPEG.cpp:42-45 | a queue starts empty at head 0 |
| FfmpegMss.PacketQueue.Push | FFMPEGMediaStreamSource/FFMPEGMediaStreamSource/FFMPEGMediaStreamSource.Shared/FFMPEG.cpp:368-381 | the ring slot (head + count) mod 320 receives the packet and the contents become Enqueue of the old contents |
| FfmpegMss.PacketQueue.Pop | FFMPEGMediaStreamSource/FFMPEGMediaStreamSource/FFMPEGMediaStreamSource.Shared/FFMPEG.cpp:383-400 | the head advances mod 320 and the packet and new contents are Dequeue of the old contents |
| FfmpegMss.RingIndex | FFMPEGMediaStreamSource/FFMPEGMediaStreamSource/FFMPEGMediaStreamSource.Shared/FFMPEG.cpp:374 | the ring position is (head + k) mod 320 |
| FfmpegMss.UnitLengthIsRead | FFMPEGMediaStreamSource/FFMPEGMediaStreamSource/FFMPEGMediaStreamSource.Shared/FFMPEG.cpp:333 | the size assembled from four bytes is the 4-byte big-endian length the checked providers read |
| FfmpegMss.AnnexBIsNalPacket | FFMPEGMediaStreamSource/FFMPEGMediaStreamSource/FFMPEGMediaStreamSource.Shared/FFMPEG.cpp:325-345 | the checked WriteNALPacket succeeds exactly on packets whose units lie inside them; on those the unchecked transform reads only inside the packet and writes what the checked one writes |
| FfmpegMss.AnnexBPastPacket | FFMPEGMediaStreamSource/FFMPEGMediaStreamSource/FFMPEGMediaStreamSource.Shared/FFMPEG.cpp:325-345 | on packets the checked transform refuses, the unchecked one reads the zeroed padding: an empty packet gives one empty unit, a short payload is completed with zeros, a payload past the padding is undefined |
| FfmpegMss.AnnexBRoundTrip | FFMPEGMediaStreamSource/FFMPEGMediaStreamSource/FFMPEGMediaStreamSource.Shared/FFMPEG.cpp:325-345 | units behind 4-byte lengths are read inside the packet and come out behind start codes |
| FfmpegMss.AnnexBKeepsLength | FFMPEGMediaStreamSource/FFMPEGMediaStreamSource/FFMPEGMediaStreamSource.Shared/FFMPEG.cpp:325-345 | replacing each length by a start code keeps the packet size |
| FfmpegMss.WriteAnnexBPacket | FFMPEGMediaStreamSource/FFMPEGMediaStreamSource/FFMPEGMediaStreamSource.Shared/FFMPEG.cpp:325-345 | for every packet size and buffer of that packet followed by its padding, the do-while loop writes AnnexBFrom of them from index 0, with the index wrapping as a uint32: reads reach into the padding, and a payload past the padding leaves the outcome undefined |
| FfmpegMss.VideoPayloadIsAvPacketWrite | FFMPEGMediaStreamSource/FFMPEGMediaStreamSource/FFMPEGMediaStreamSource.Shared/FFMPEG.cpp:267-274 | whenever the checked H.264 AVC provider's write succeeds on the same extradata and packet, the compressed video sample stays inside them and is what that provider writes |
| FfmpegMss.GetSpsAndPpsBuffer | FFMPEGMediaStreamSource/FFMPEGMediaStreamSource/FFMPEGMediaStreamSource.Shared/FFMPEG.cpp:347-366 | for every extradata the method writes SpsPps of it: each set behind a start code, read through the padding, undefined once a set runs past it |
| FfmpegMss.SpsPpsIsBuffer | FFMPEGMediaStreamSource/FFMPEGMediaStreamSource/FFMPEGMediaStreamSource.Shared/FFMPEG.cpp:347-366 | the checked SPS/PPS buffer succeeds exactly on extradata holding both sets, and there the unchecked reads give the same buffer |
| FfmpegMss.SpsPpsOfEmptyExtradata | FFMPEGMediaStreamSource/FFMPEGMediaStreamSource/FFMPEGMediaStreamSource.Shared/FFMPEG.cpp:347-366 | empty extradata reads two empty sets from the padding, where the checked buffer fails |
| FfmpegMss.ReadStep | FFMPEGMediaStreamSource/FFMPEGMediaStreamSource/FFMPEGMediaStreamSource.Shared/FFMPEG.cpp:295-323 | a failed read changes only the demuxer position; a packet goes to the audio queue, else the video queue, else is dropped |
| FfmpegMss.Refill | FFMPEGMediaStreamSource/FFMPEGMediaStreamSource/FFMPEGMediaStreamSource.Shared/FFMPEG.cpp:187-194 | the read loop does nothing when the requested queue already holds a packet |
| FfmpegMss.FillSampleNone | FFMPEGMediaStreamSource/FFMPEGMediaStreamSource/FFMPEGMediaStreamSource.Shared/FFMPEG.cpp:162-175 | a request gets no sample exactly when it names neither stream, or the video stream runs dry; naming neither changes nothing |
| FfmpegMss.RefillFindsFirst | FFMPEGMediaStreamSource/FFMPEGMediaStreamSource/FFMPEGMediaStreamSource.Shared/FFMPEG.cpp:187-194 | with the queue empty, the loop skips other streams' packets and stops right after the first packet of the requested stream |
| FfmpegMss.FillFindsFirst | FFMPEGMediaStreamSource/FFMPEGMediaStreamSource/FFMPEGMediaStreamSource.Shared/FFMPEG.cpp:177-239 | a request on an empty queue delivers the first packet read for that stream, leaving its queue empty |
| FfmpegMss.FfmpegSource.constructor | FFMPEGMediaStreamSource/FFMPEGMediaStreamSource/FFMPEGMediaStreamSource.Shared/FFMPEG.cpp:31-48 | both queues start empty, with the given stream indices and ids |
| FfmpegMss.FfmpegSource.ReadPacket | FFMPEGMediaStreamSource/FFMPEGMediaStreamSource/FFMPEGMediaStreamSource.Shared/FFMPEG.cpp:295-323 | returns the read result and moves to ReadStep of the old state |
| FfmpegMss.FfmpegSource.FillAudioSample | FFMPEGMediaStreamSource/FFMPEGMediaStreamSource/FFMPEGMediaStreamSource.Shared/FFMPEG.cpp:177-212 | the new state and packet are FillAudio of the old state |
| FfmpegMss.FfmpegSource.FillVideoSample | FFMPEGMediaStreamSource/FFMPEGMediaStreamSource/FFMPEGMediaStreamSource.Shared/FFMPEG.cpp:214-252 | the new state and packet are FillVideo of the old state |
| FfmpegMss.FfmpegSource.FillSampleFor | FFMPEGMediaStreamSource/FFMPEGMediaStreamSource/FFMPEGMediaStreamSource.Shared/FFMPEG.cpp:162-175 | the new state and sample are FillSample of the old state |
| FfmpegMss.FfmpegSource.VideoSampleBuffer | FFMPEGMediaStreamSource/FFMPEGMediaStreamSource/FFMPEGMediaStreamSource.Shared/FFMPEG.cpp:267-274 | for every packet and extradata the buffer is VideoPayload: on a key frame the SPS and PPS (undefined once they run past the extradata's padding), then the packet in start-code form |
| SampleProviding.Flushed | FFmpegInterop/SampleProvider.cpp:120-124 | a flush empties the queue and marks the next sample discontinuous, keeping selection and the next timestamp |
| SampleProviding.Enqueued | FFmpegInterop/SampleProvider.cpp:126-132 | a packet is appended while the stream is selected and ignored otherwise; nothing else changes |
| SampleProviding.FetchPacket | FFmpegInterop/SampleProvider.cpp:181-193 | the oldest queued packet without reading; with the queue empty, reads until a packet reaches this provider, or the read error |
| SampleProviding.GetSampleOf | FFmpegInterop/SampleProvider.cpp:134-169 | MF_E_INVALIDREQUEST unless selected; a sample carries the old discontinuity flag, which is then cleared; a failure keeps flag and next timestamp |
| SampleProviding.TimelineBackFill | FFmpegInterop/SampleProvider.cpp:142-149 | packets without timestamps are laid end to end from the next expected timestamp |
| SampleProviding.TimelineResync | FFmpegInterop/SampleProvider.cpp:142-149 | a packet with a timestamp restarts the timeline there, whatever came before |
| SampleProviding.DrainFollowsTimeline | FFmpegInterop/SampleProvider.cpp:134-193 | requests served from the queue return its packets in order, timed by the timeline relative to the start offset; only the first can be discontinuous |
| SampleProviding.SampleProvider.constructor | FFmpegInterop/SampleProvider.cpp:30-44 | start offset and next timestamp are the stream's start time or 0; unselected, discontinuous, empty |
| SampleProviding.SampleProvider.Select | FFmpegInterop/SampleProvider.cpp:101-105 | the stream becomes selected, nothing else changes |
| SampleProviding.SampleProvider.Deselect | FFmpegInterop/SampleProvider.cpp:107-112 | the stream is deselected and flushed |
| SampleProviding.SampleProvider.OnSeek | FFmpegInterop/SampleProvider.cpp:114-118 | the next timestamp becomes the seek time and the stream is flushed |
| SampleProviding.SampleProvider.Flush | FFmpegInterop/SampleProvider.cpp:120-124 | the state becomes Flushed of the old state |
| SampleProviding.SampleProvider.QueuePacket | FFmpegInterop/SampleProvider.cpp:126-132 | the state becomes Enqueued of the old state |
| SampleProviding.SampleProvider.GetPacket | FFmpegInterop/SampleProvider.cpp:181-193 | the loop computes FetchPacket of the old queue |
| SampleProviding.SampleProvider.GetSample | FFmpegInterop/SampleProvider.cpp:134-179 | the result and new state are GetSampleOf of the old state |
| MediaSampleProviding.Stamped | FFmpegInterop/MediaSampleProvider.cpp:119-142 | a packet with a timestamp keeps it; one without starts where the previous frame ended, or at the stream's start time (0 if none); the next frame starts at its end |
| MediaSampleProviding.StampsBackFill | FFmpegInterop/MediaSampleProvider.cpp:129-139 | after a frame, packets without timestamps are laid end to end from where it ended |
| MediaSampleProviding.StampsFromStreamStart | FFmpegInterop/MediaSampleProvider.cpp:131-134 | before any frame, packets without timestamps are laid end to end from the stream's start time |
| MediaSampleProviding.ReadUntilQueued | FFmpegInterop/MediaSampleProvider.cpp:168-182 | reading stops at the first packet queued here (only while enabled); AVERROR_EOF or the end of input gives MF_E_END_OF_STREAM, other errors E_FAIL |
| MediaSampleProviding.ReadUntilQueuedSkips | FFmpegInterop/MediaSampleProvider.cpp:168-182 | every read before the one that queues a packet or fails hands this provider nothing it keeps |
| MediaSampleProviding.Fetch | FFmpegInterop/MediaSampleProvider.cpp:165-206 | a delivered frame is one the decoder completed; a failure is never S_OK; discontinuity once set stays set |
| MediaSampleProviding.SkipsRejected | FFmpegInterop/MediaSampleProvider.cpp:194-204 | with skipping on and the budget left, rejected packets are passed over, each counted and marking the stream discontinuous |
| MediaSampleProviding.SkipsUpToTen | FFmpegInterop/MediaSampleProvider.cpp:198 | up to ten broken packets before a good one are skipped; the good one is delivered and the stream reported discontinuous if any was skipped |
| MediaSampleProviding.EleventhBrokenFails | FFmpegInterop/MediaSampleProvider.cpp:198 | the eleventh broken packet in a row ends the request with its failure code |
| MediaSampleProviding.NoSkipFailsOnBroken | FFmpegInterop/MediaSampleProvider.cpp:194-204 | without skipping, the first broken packet ends the request with its code |
| MediaSampleProviding.BaseDecoderDeliversFront | FFmpegInterop/MediaSampleProvider.cpp:119-142 | with the base decoder a request delivers the oldest queued packet, or the first one read, with its timestamp |
| MediaSampleProviding.Flushed | FFmpegInterop/MediaSampleProvider.cpp:220-226 | a flush empties the queue and marks the stream discontinuous, nothing else |
| MediaSampleProviding.Queued | FFmpegInterop/MediaSampleProvider.cpp:144-152 | a packet is appended while enabled and dropped otherwise |
| MediaSampleProviding.Disabled | FFmpegInterop/MediaSampleProvider.cpp:228-233 | disabling flushes and clears the enabled flag |
| MediaSampleProviding.NextSample | FFmpegInterop/MediaSampleProvider.cpp:79-108 | nothing while disabled; a sample is the packet as the provider's WriteAVPacketToStream writes it and carries the discontinuity flag, which is then cleared; a failure other than end of stream, of a read, the decoder or the write, disables the stream |
| MediaSampleProviding.FirstSampleAfterFlushIsDiscontinuous | FFmpegInterop/MediaSampleProvider.cpp:97-98 | the first sample after a flush is discontinuous; the one after it is discontinuous exactly when its request decoded more than one packet, that is, skipped rejected ones |
| MediaSampleProviding.FetchDiscontinuity | FFmpegInterop/MediaSampleProvider.cpp:184-205 | a request that delivers a frame leaves the stream discontinuous exactly when it was before or a packet was rejected before the frame |
| MediaSampleProviding.NextSampleDiscontinuity | FFmpegInterop/MediaSampleProvider.cpp:79-108 | a sample is marked discontinuous exactly when the stream was or packets were skipped before it |
| MediaSampleProviding.QueuedPacketIsNextSample | FFmpegInterop/MediaSampleProvider.cpp:79-117 | with a packet queued, the base decoder and the base writer, the next sample is that packet's bytes and the rest of the queue remains |
| MediaSampleProviding.QueuedPacketWrittenByH264Avc | FFmpegInterop/MediaSampleProvider.cpp:79-217 | with the H.264 AVC provider's writer, a queued packet gives a sample exactly when that provider's write succeeds, holding what it writes; otherwise the stream is disabled and flushed |
| MediaSampleProviding.EmptyPacketDisablesH264AvcStream | FFmpegInterop/MediaSampleProvider.cpp:79-217 | an empty non-key packet disables an H.264 AVC stream, where the base provider delivers it |
| MediaSampleProviding.WriteAvPacket | FFmpegInterop/MediaSampleProvider.cpp:110-117 | the base write copies the packet and succeeds; either write returns S_OK or E_FAIL |
| MediaSampleProviding.CurrentStreamIndex | FFmpegInterop/MediaSampleProvider.cpp:65-77 | the index is kept or becomes AVERROR_STREAM_NOT_FOUND |
| MediaSampleProviding.CurrentStreamIndexKeepsExisting | FFmpegInterop/MediaSampleProvider.cpp:69 | the unsigned comparison keeps exactly the indices of existing streams; a negative index wraps and is refused |
| MediaSampleProviding.MediaSampleProvider.constructor | FFmpegInterop/MediaSampleProvider.cpp:40-52 | no stream index, disabled, discontinuous, no frame timestamp; start offset is the format start time in 100 ns units, or 0 |
| MediaSampleProviding.MediaSampleProvider.SetCurrentStreamIndex | FFmpegInterop/MediaSampleProvider.cpp:65-77 | the index becomes CurrentStreamIndex, nothing else changes |
| MediaSampleProviding.MediaSampleProvider.QueuePacket | FFmpegInterop/MediaSampleProvider.cpp:144-152 | the state becomes Queued of the old state |
| MediaSampleProviding.MediaSampleProvider.Flush | FFmpegInterop/MediaSampleProvider.cpp:220-226 | the state becomes Flushed of the old state |
| MediaSampleProviding.MediaSampleProvider.DisableStream | FFmpegInterop/MediaSampleProvider.cpp:228-233 | the state becomes Disabled of the old state |
| MediaSampleProviding.MediaSampleProvider.EnableStream | FFmpegInterop/MediaSampleProvider.cpp:235-239 | only the enabled flag is set |
| MediaSampleProviding.MediaSampleProvider.DecodeAVPacket | FFmpegInterop/MediaSampleProvider.cpp:119-142 | the frame's timestamps are Stamped of the packet, and the next frame timestamp moves on |
| MediaSampleProviding.MediaSampleProvider.FillQueue | FFmpegInterop/MediaSampleProvider.cpp:168-182 | the inner loop computes ReadUntilQueued |
| MediaSampleProviding.MediaSampleProvider.PlayRound | FFmpegInterop/MediaSampleProvider.cpp:184-205 | one round of the outer loop, as Round states it |
| MediaSampleProviding.MediaSampleProvider.GetNextPacket | FFmpegInterop/MediaSampleProvider.cpp:154-218 | the new state is Fetch from the request's start; the HRESULT is the loop's failure or else the write's, and the data is what the provider's WriteAVPacketToStream writes |
| MediaSampleProviding.MediaSampleProvider.GetNextSample | FFmpegInterop/MediaSampleProvider.cpp:79-108 | the sample and new state are NextSample of the old state |
| FfmpegReading.Route | FFmpegInterop/FFmpegReader.cpp:51-64 | the audio provider takes a packet of the audio stream when present; failing that the video provider takes one of the video stream; anything else is dropped |
| FfmpegReading.RouteByStream | FFmpegInterop/FFmpegReader.cpp:51-64 | with distinct stream indices a packet reaches the provider of its own stream, if there is one |
| FfmpegReading.ReadReturn | FFmpegInterop/FFmpegReader.cpp:45-49 | the return is 0 for a packet and the read's negative code otherwise; an exhausted file gives AVERROR_EOF |
| FfmpegReading.SeenBy | FFmpegInterop/FFmpegReader.cpp:37-67 | a provider sees a delivered packet only when the read produced it, and an error exactly when the read failed |
| FfmpegReading.DeliveredToOneProvider | FFmpegInterop/FFmpegReader.cpp:52-59 | no packet is delivered to both providers |
| FfmpegReading.FFmpegReader.constructor | FFmpegInterop/FFmpegReader.cpp:24-29 | both stream indices are AVERROR_STREAM_NOT_FOUND and there are no providers |
| FfmpegReading.FFmpegReader.ReadPacket | FFmpegInterop/FFmpegReader.cpp:37-67 | one read: its return value, and the packet queued by exactly the provider it is routed to, nothing else changing |
| FfmpegReading.FFmpegReader.SetAudioStream | FFmpegInterop/FFmpegReader.cpp:69-77 | stores index and provider and sets the provider's current stream index; the video side is unchanged |
| FfmpegReading.FFmpegReader.SetVideoStream | FFmpegInterop/FFmpegReader.cpp:79-87 | stores index and provider and sets the provider's current stream index; the audio side is unchanged |
| UncompressedAudioLegacy.FetchAt | FFmpegInterop/Source/UncompressedAudioSampleProvider.cpp:132 | only the first fetch of a request may skip broken packets; past the given fetches the file has ended |
| UncompressedAudioLegacy.Gather | FFmpegInterop/Source/UncompressedAudioSampleProvider.cpp:127-148 | the loop ends after a failed fetch or once 50 ms (500000) is reached; the saved flag is the one after the first fetch |
| UncompressedAudioLegacy.GatheredDuration | FFmpegInterop/Source/UncompressedAudioSampleProvider.cpp:139-146 | the sample's duration is the sum of the successful fetches' durations |
| UncompressedAudioLegacy.GatheredData | FFmpegInterop/Source/UncompressedAudioSampleProvider.cpp:111-152 | the sample's bytes are everything every fetch of the request wrote into the one DataWriter, in order, including what a failing last fetch wrote before it failed |
| UncompressedAudioLegacy.SampleStartsAtFirstFetch | FFmpegInterop/Source/UncompressedAudioSampleProvider.cpp:141-144 | the sample starts at the first fetch's timestamp when that fetch succeeded |
| UncompressedAudioLegacy.KeepsPts | FFmpegInterop/Source/UncompressedAudioSampleProvider.cpp:141-144 | once set, the timestamp is kept by later fetches |
| UncompressedAudioLegacy.OnlyFirstFetchSkips | FFmpegInterop/Source/UncompressedAudioSampleProvider.cpp:132-137 | inputs agreeing on the first fetch's skipping answer and later fetches' strict answers give the same sample |
| UncompressedAudioLegacy.NextSample | FFmpegInterop/Source/UncompressedAudioSampleProvider.cpp:111-168 | a positive total makes a sample of the detached writer's bytes (those of every fetch made) and clears the flag only if the last fetch succeeded; otherwise no sample and the stream is disabled |
| UncompressedAudioLegacy.FullSampleClearsFlag | FFmpegInterop/Source/UncompressedAudioSampleProvider.cpp:148-161 | a sample that reached 50 ms has at least that duration and leaves the flag cleared |
| UncompressedAudioLegacy.FailedFetchBytesKept | FFmpegInterop/Source/UncompressedAudioSampleProvider.cpp:127-152 | when the second fetch fails after a first one short of 50 ms, the sample lasts the first fetch's duration and holds both fetches' bytes |
| UncompressedAudioLegacy.FirstFetchFailureDisables | FFmpegInterop/Source/UncompressedAudioSampleProvider.cpp:150-167 | when the first fetch fails there is no sample and the stream is flushed and disabled |
| UncompressedAudioLegacy.UncompressedAudioSampleProvider.DisableStream | FFmpegInterop/Source/MediaSampleProvider.cpp:249-254 | the queue is emptied and the stream disabled |
| UncompressedAudioLegacy.UncompressedAudioSampleProvider.GetNextSample | FFmpegInterop/Source/UncompressedAudioSampleProvider.cpp:111-168 | the sample and new state are NextSample of the old state |
| Utility.GuidLessIsLexicographic | FFmpegInterop/Utility.h:24-51 | less<GUID> is the lexicographic order on the GUID's four 32-bit words |
| Utility.GuidLessIsStrictTotalOrder | FFmpegInterop/Utility.h:24-51 | less<GUID> is irreflexive, transitive and asymmetric, and orders any two distinct GUIDs one way, as a std::map key requires |
| Utility.AverrorToHresult | FFmpegInterop/Utility.h:60-73 | EINVAL, ENOMEM, BUFFER_TOO_SMALL and EOF map to E_INVALIDARG, E_OUTOFMEMORY, MF_E_BUFFERTOOSMALL and MF_E_END_OF_STREAM; every other code to E_FAIL |
| Utility.AverrorToHresultFails | FFmpegInterop/Utility.h:60-73 | a translated code is never S_OK, and distinct mapped codes stay distinct |
| Utility.FfmpegCheck | FFmpegInterop/Utility.h:76 | THROW_IF_FFMPEG_FAILED throws exactly for negative results, and never S_OK |
| Utility.AVImage.constructor | FFmpegInterop/Utility.h:166-171 | a new image has null planes and line sizes -1 |
| Utility.AVImage.Reset | FFmpegInterop/Utility.h:195-200 | the planes become null and the line sizes -1 |
| Utility.AVImage.MoveAssign | FFmpegInterop/Utility.h:186-193 | the plane pointers are swapped and the other's line sizes copied; self-assignment changes nothing |
| Utility.AVSamples.constructor | FFmpegInterop/Utility.h:209 | a new owner has no buffer and size -1 |
| Utility.AVSamples.Reset | FFmpegInterop/Utility.h:231-235 | the buffer is freed and the size goes back to -1 |
| Utility.AVSamples.MoveAssignAsWritten | FFmpegInterop/Utility.h:223-229 | as written the pointers are swapped and the sizes are not |
| Utility.AVSamples.MoveAssign | FFmpegInterop/Utility.h:223-229 | corrected: pointer and size move together, so both owners stay consistent |
| Utility.MoveIntoEmptyAsWritten | FFmpegInterop/Utility.h:223-229 | as written, moving a buffer into an empty owner leaves it holding the buffer with size -1, which means "no buffer" |
| UncompressedAudio.SampleDurationRoundsDown | FFmpegInterop/UncompressedAudioSampleProvider.cpp:81-82 | with positive operands the sample duration is the sample count converted to time-base units and rounded down: the largest d with d * rate * num <= count * den |
| UncompressedAudio.SampleDurationInSampleUnits | FFmpegInterop/UncompressedAudioSampleProvider.cpp:82 | in a time base of 1/sample rate the duration equals the sample count |
| UncompressedAudio.SampleDurationMonotone | FFmpegInterop/UncompressedAudioSampleProvider.cpp:82 | more samples never yield a shorter duration |
| UncompressedAudio.ResampledFormat | FFmpegInterop/UncompressedAudioSampleProvider.cpp:103-105 | a new resampler's output frame is 16-bit at the context's rate, with the context's channel layout or, when that is unknown (0), the default layout |
| UncompressedAudio.UnresampledFrameIsOutputFormat | FFmpegInterop/UncompressedAudioSampleProvider.cpp:89-92 | a frame that needs no resampler is already in the resampler's output format and channel count |
| UncompressedAudio.Resample | FFmpegInterop/UncompressedAudioSampleProvider.cpp:62-73 | a conversion result other than AVERROR_INPUT_CHANGED decides success or its HRESULT; on AVERROR_INPUT_CHANGED the reconfigure, re-init and second conversion decide; any reported HRESULT is a failure |
| UncompressedAudio.ResampleRetriesOnce | FFmpegInterop/UncompressedAudioSampleProvider.cpp:63-69 | there is one retry only: a second AVERROR_INPUT_CHANGED fails with E_FAIL, and the first failing step of the reconfiguration decides the error |
| UncompressedAudio.ResampleWithoutRetry | FFmpegInterop/UncompressedAudioSampleProvider.cpp:70-73 | success or a plain error of the first conversion involves no other call, and success holds exactly when that conversion returns >= 0 |
| UncompressedAudio.UncompressedAudioSampleProvider.constructor | FFmpegInterop/UncompressedAudioSampleProvider.cpp:28-32 | a new provider keeps the codec context's rate, channels, layout and time base and has no resampler |
| UncompressedAudio.UncompressedAudioSampleProvider.InitResamplerIfNeeded | FFmpegInterop/UncompressedAudioSampleProvider.cpp:87-113 | afterwards a resampler exists exactly when the frame's format, rate or channel count differs from 16-bit at the context's rate and channels; an existing one is kept with its output frame as it is (cleared after an earlier resample), a new one gets the output format, one no longer needed is released |
| UncompressedAudio.UncompressedAudioSampleProvider.GetSampleData | FFmpegInterop/UncompressedAudioSampleProvider.cpp:40-85 | without a resampler the frame's own buffer and sample count are delivered, with one the resampled buffer and count or the resampling error; the timestamp is the frame's best-effort timestamp and the duration is the rounded-down conversion of the count; a successful resample leaves the output frame cleared by av_frame_unref (format, rate and layout unset), a failed one leaves it as InitResamplerIfNeeded left it, and without a resampler there is no output frame |
| CodecSamples.Finish | FFmpegInterop/SampleProvider.cpp:140-166 | the sample carries the data's buffer and the pending discontinuity flag, its timestamp is the data's or else the next expected one, converted from the start offset; the next expected timestamp moves past it by the duration; the queue and selection are unchanged and the discontinuity is cleared |
| CodecSamples.BaseGetSampleFinishes | FFmpegInterop/SampleProvider.cpp:134-179 | the base GetSample serves the fetched packet's own buffer, timestamp and duration, finished as above |
| CodecSamples.Av1Transform | FFmpegInterop/AV1SampleProvider.cpp:47-69 | a key frame with a non-empty extradata is the configuration OBUs followed by the packet; any other packet is passed on unchanged |
| CodecSamples.Av1TransformKeepsPacket | FFmpegInterop/AV1SampleProvider.cpp:53-68 | whatever the packet, it is the tail of the output, and what precedes it is the whole configuration or nothing |
| CodecSamples.Av1IsBaseWithTransformedData | FFmpegInterop/AV1SampleProvider.cpp:33-45 | the AV1 provider serves what the base provider serves, with the packet's timestamp and duration, the same state and reads, and only the buffer transformed |
| CodecSamples.StreamInfoData | FFmpegInterop/FLACSampleProvider.cpp:36-51 | an extradata shorter than 34 bytes fails with E_UNEXPECTED, and only then; otherwise the sample is "fLaC", a last-block STREAMINFO header of length 34 and the first 34 extradata bytes, timed at the start offset with no duration |
| CodecSamples.FlacHeaderOncePerDiscontinuity | FFmpegInterop/FLACSampleProvider.cpp:34-56 | after a flush the first request is the STREAMINFO sample at time 0, discontinuous, reading no packet and leaving the queue; the request after it is an ordinary base request |
| CodecSamples.FlacShortExtradataFails | FFmpegInterop/FLACSampleProvider.cpp:43 | a discontinuous stream with a short extradata fails every request with E_UNEXPECTED and changes nothing |
| SubtitleSampling.SubtitleFlushed | FFmpegInterop/SubtitleSampleProvider.cpp:32-39 | the subtitle flush is the base flush and drops any outstanding request |
| SubtitleSampling.PacketQueued | FFmpegInterop/SubtitleSampleProvider.cpp:41-54 | with no request outstanding the packet is only enqueued; a completed request is the one that was outstanding and none is left; a request that throws stays outstanding with a failure HRESULT |
| SubtitleSampling.SampleRequested | FFmpegInterop/SubtitleSampleProvider.cpp:56-71 | the request is deferred exactly when no packet is queued, and then it becomes the outstanding request; otherwise the base request answers it |
| SubtitleSampling.DeferredRequestTakesNextPacket | FFmpegInterop/SubtitleSampleProvider.cpp:41-71 | a request made on an empty selected stream is deferred, and the next packet queued completes exactly that request with that packet's data and timestamp, leaving nothing queued and nothing outstanding |
| SubtitleSampling.QueuedPacketServedAtOnce | FFmpegInterop/SubtitleSampleProvider.cpp:58-61 | with a packet queued the request is answered at once with the front packet, using no read, and that packet leaves the queue |
| SubtitleSampling.QueuedPacketClearsRequest | FFmpegInterop/SubtitleSampleProvider.cpp:43-53 | on a selected stream queuing a packet never throws and always leaves no request outstanding |
| SubtitleSampling.SubtitleSampleProvider.constructor | FFmpegInterop/SubtitleSampleProvider.cpp:26-30 | a new provider is the base provider's initial state, deselected and discontinuous with an empty queue, with no request outstanding |
| SubtitleSampling.SubtitleSampleProvider.Flush | FFmpegInterop/SubtitleSampleProvider.cpp:32-39 | the new state is the subtitle flush of the old one |
| SubtitleSampling.SubtitleSampleProvider.Deselect | FFmpegInterop/SampleProvider.cpp:107-112 | deselecting clears the selection and flushes through the subtitle flush, so an outstanding request is dropped too |
| SubtitleSampling.SubtitleSampleProvider.OnSeek | FFmpegInterop/SampleProvider.cpp:114-118 | a seek sets the next expected timestamp and flushes through the subtitle flush |
| SubtitleSampling.SubtitleSampleProvider.QueuePacket | FFmpegInterop/SubtitleSampleProvider.cpp:41-54 | the completion and the new state are those of PacketQueued |
| SubtitleSampling.SubtitleSampleProvider.GetSample | FFmpegInterop/SubtitleSampleProvider.cpp:56-71 | the answer and the new state are those of SampleRequested, with at most one request outstanding as the source asserts |
| StreamFactory.CreateAudioStream | FFmpegInterop/StreamFactory.cpp:91-212 | forced audio decoding always yields the uncompressed audio provider with 16-bit PCM at the stream's rate and channels; that provider and those properties are chosen exactly when decoding is forced or the codec is not one of the listed passthrough codecs |
| StreamFactory.AacIsAdtsWithoutExtradata | FFmpegInterop/StreamFactory.cpp:111-122 | AAC is advertised as ADTS exactly when it has no extradata and as raw AAC otherwise, served by the base provider |
| StreamFactory.AdvertisedBitRate | FFmpegInterop/StreamFactory.cpp:111-159 | AAC and MP3 are advertised with the stream's sample rate and channels and its bit rate cast to uint32_t: below 2^32, unchanged when it fits, and -1 wrapped to 2^32 - 1 |
| StreamFactory.AudioProviderClasses | FFmpegInterop/StreamFactory.cpp:109-205 | the ACM provider takes exactly mu-law and the WMA family, FLAC alone gets the FLAC provider, and format user data is set exactly for ALAC and Opus, none of it under forced decoding |
| StreamFactory.CreateVideoStream | FFmpegInterop/StreamFactory.cpp:215-312 | forced video decoding always yields the uncompressed video provider with NV12 at the stream's size; that provider is chosen exactly when decoding is forced or the codec is not a listed passthrough codec |
| StreamFactory.VideoProviderClasses | FFmpegInterop/StreamFactory.cpp:233-305 | the VFW provider takes exactly the legacy codecs, H.264 and HEVC get their own providers, and format user data is set exactly for MPEG-4 part 2 and the VFW codecs, none of it under forced decoding |
| StreamFactory.CreateSubtitleStream | FFmpegInterop/StreamFactory.cpp:315-364 | an unlisted subtitle codec fails with MF_E_INVALIDMEDIATYPE, and only such a codec; a listed one gets the subtitle provider, with format user data exactly for ASS, SSA and DVD subtitles |
| StreamFactory.PassthroughOnlyWithoutForce | FFmpegInterop/StreamFactory.cpp:103-107 | a passthrough provider is never chosen under forced decoding or for an unlisted codec |
| InteropMss.StreamChoice | FFmpegInterop/FFmpegInteropMSS.cpp:180-227 | a stream is skipped exactly when it is neither audio, video nor subtitles, is cover art, or is a subtitle stream the factory refuses |
| InteropMss.CatalogMembers | FFmpegInterop/FFmpegInteropMSS.cpp:172-235 | after the loop every stream the factory accepts has a provider, with the factory's choice, and no other stream has one |
| InteropMss.CatalogKeepsEarlier | FFmpegInterop/FFmpegInteropMSS.cpp:233 | looking at a stream leaves the providers of all earlier streams as they were |
| InteropMss.CatalogNewest | FFmpegInterop/FFmpegInteropMSS.cpp:182-209 | the provider created for a stream holds the factory's choice, starts flushed at its start time, and is selected exactly when it is the first audio or first non-cover-art video stream |
| InteropMss.CatalogEntry | FFmpegInterop/FFmpegInteropMSS.cpp:169-235 | after any number of streams, each provider is still the one created when its stream was looked at, selected exactly when that stream is the first audio or first video stream |
| InteropMss.CatalogContents | FFmpegInterop/FFmpegInteropMSS.cpp:169-235 | every provider in the finished catalog is selected exactly when its stream is the first audio or first video stream, and starts empty, discontinuous and at its stream's start time |
| InteropMss.OneSelectedPerKind | FFmpegInterop/FFmpegInteropMSS.cpp:185-206 | at most one audio and one video stream start selected |
| InteropMss.Starting | FFmpegInterop/FFmpegInteropMSS.cpp:256-303 | no start position resumes, and only then; a target past the file's duration fails with MF_E_INVALID_TIMESTAMP; playback starts only at the requested position after a successful seek within the duration; any failure has a failure HRESULT |
| InteropMss.SeekAll | FFmpegInterop/FFmpegInteropMSS.cpp:284-287 | as written every provider is sought, and no provider is added or removed |
| InteropMss.SeekSeedAsWrittenIsInWrongUnit | FFmpegInterop/FFmpegInteropMSS.cpp:273-286 | as written, after a seek to 1 s a packet without a timestamp on a 1/90000 s stream is served at about 11.1 s, not at 1 s |
| InteropMss.SeekAllRescaled | FFmpegInterop/FFmpegInteropMSS.cpp:284-287 | the corrected seek reaches every provider and adds or removes none |
| InteropMss.RescaledSeedLandsAtTarget | FFmpegInterop/FFmpegInteropMSS.cpp:273-286 | the rescaled seed, converted back to 100 ns units, never lies past the seek target and equals it when the target is a whole number of the stream's ticks |
| InteropMss.SeekSeedRescaledIsInStreamUnit | FFmpegInterop/FFmpegInteropMSS.cpp:273-286 | with the rescaled seed the same seek to 1 s serves the next untimed packet at exactly 1 s |
| InteropMss.SeekFlushesEveryStream | FFmpegInterop/SampleProvider.cpp:114-118 | after a seek every provider is empty, discontinuous and expects the target next, with its selection and choice kept |
| InteropMss.Reported | FFmpegInterop/FFmpegInteropMSS.cpp:313-327 | a sample answers the request; MF_E_END_OF_STREAM leaves it unanswered without an error, and only that; any other failure is reported |
| InteropMss.SwitchMovesSelection | FFmpegInterop/FFmpegInteropMSS.cpp:343-356 | a switch between two streams with providers leaves the old one deselected, empty and discontinuous, the new one selected with its queue, and every other provider unchanged |
| InteropMss.FFmpegInteropMSS.constructor | FFmpegInterop/FFmpegInteropMSS.cpp:90-97 | a new source has no provider, no duration, no buffer time, cannot seek and has notified no error |
| InteropMss.FFmpegInteropMSS.InitFFmpegContext | FFmpegInterop/FFmpegInteropMSS.cpp:165-254 | a failing avformat_find_stream_info is reported; otherwise the providers are the catalog, a positive duration is set and makes the source seekable, and a non-positive one sets the buffer time to 0 |
| InteropMss.FFmpegInteropMSS.OnStarting | FFmpegInterop/FFmpegInteropMSS.cpp:256-303 | the outcome is Starting's; a successful start seeks every provider to the rescaled target, nothing else changes the providers, and a failure notifies one error |
| InteropMss.FFmpegInteropMSS.OnSampleRequested | FFmpegInterop/FFmpegInteropMSS.cpp:305-328 | an unknown stream is an error that changes nothing; a known one is served by the base provider's GetSample (see "Left out"), whose new state is kept, and the outcome is reported as Reported says, one error notified for each reported failure |
| InteropMss.FFmpegInteropMSS.OnSwitchStreamsRequested | FFmpegInterop/FFmpegInteropMSS.cpp:330-362 | the old stream is deselected and flushed, then the new one selected; a missing provider stops the switch there and notifies one error, keeping what was already done |
| InteropMss.FFmpegInteropMSS.OnClosed | FFmpegInterop/FFmpegInteropMSS.cpp:364-385 | closing clears every provider and releases the source, notifying nothing |
| LegacyMss.FirstFailure | FFmpegInterop/Source/FFmpegInteropMSS.cpp:151-203 | a chain of steps guarded by SUCCEEDED(hr) succeeds exactly when every step does, and a failure is one of the steps' |
| LegacyMss.FirstFailureIsFirst | FFmpegInterop/Source/FFmpegInteropMSS.cpp:151-203 | the failure reported is that of the first failing step, later steps not running |
| LegacyMss.UriFactoryContract | FFmpegInterop/Source/FFmpegInteropMSS.cpp:129-139 | a source is created from a URI exactly when the URI is present, the format context is allocated, the options parse, the input opens and the context initialises; without a URI the failure is E_INVALIDARG, and without a format context E_OUTOFMEMORY |
| LegacyMss.StreamFactoryContract | FFmpegInterop/Source/FFmpegInteropMSS.cpp:107-117 | a source is created from a stream exactly when every step of opening it succeeds; without a stream the failure is E_INVALIDARG, and a failing IStream wrapper reports its own error |
| LegacyMss.Lookup | FFmpegInterop/Source/FFmpegInteropMSS.cpp:682 | a key is absent exactly when no entry's key matches it without regard to ASCII case |
| LegacyMss.Without | FFmpegInterop/Source/FFmpegInteropMSS.cpp:682 | no remaining entry matches the removed key |
| LegacyMss.DictSetLookup | FFmpegInterop/Source/FFmpegInteropMSS.cpp:682 | after av_dict_set a key reads back its new value and every key that does not match it reads as before |
| LegacyMss.LookupAppend | FFmpegInterop/Source/FFmpegInteropMSS.cpp:682 | a lookup in two dictionaries one after the other finds the first one's entry if it has one, else the second's |
| LegacyMss.ParseFrom | FFmpegInterop/Source/FFmpegInteropMSS.cpp:664-690 | parsing succeeds or fails with E_INVALIDARG, and fails exactly when some av_dict_set fails |
| LegacyMss.ParsedDictionaryHoldsLastValues | FFmpegInterop/Source/FFmpegInteropMSS.cpp:664-690 | when every option is added, each key reads back the value of the last option naming it, and keys no option names keep their old value |
| LegacyMss.StreamOverloadDropsOptions | FFmpegInterop/Source/FFmpegInteropMSS.cpp:119-122 | as written, options given to the four-argument stream factory leave the dictionary as it was: rtsp_transport=tcp is not set |
| LegacyMss.StreamOverloadKeepsOptions | FFmpegInterop/Source/FFmpegInteropMSS.cpp:119-122 | handing on the caller's options, every key reads back the value of the last option naming it |
| Common.ToUint32 | FFmpegInterop/Source/FFmpegInteropMSS.cpp:579 | the unsigned int cast gives a value below 2^32 that equals its operand when that already fits |
| Common.ToUint32IsModulo | FFmpegInterop/Source/FFmpegInteropMSS.cpp:579 | the cast keeps exactly the operand's residue modulo 2^32, negative operands included |
| LegacyMss.AudioDescriptor | FFmpegInterop/Source/FFmpegInteropMSS.cpp:573-600 | AAC and MP3 are passed through unless decoding is forced, and everything else is decoded to 16-bit PCM at the codec's rate and channels; AAC is ADTS exactly when it has no extradata; passed-through audio keeps the channels and the 32-bit cast of the bit rate |
| LegacyMss.AdvertisedSampleRate | FFmpegInterop/Source/FFmpegInteropMSS.cpp:583 | AAC with extradata in an HE-AAC profile advertises half the codec's sample rate rounded down, and every other descriptor the codec's rate |
| LegacyMss.DetectedFrameRate | FFmpegInterop/Source/FFmpegInteropMSS.cpp:641-651 | the frame rate is the codec's unless it is 0/1, else the stream's average unless it is 0/0, else none is set |
| LegacyMss.VideoDescriptor | FFmpegInterop/Source/FFmpegInteropMSS.cpp:602-657 | H.264 is passed through exactly when decoding is not forced, in AVC form exactly when the extradata starts with 1; everything else is NV12 with mixed interlace and a pixel aspect ratio exactly when the sample aspect ratio is valid; size, rotation, frame rate and 32-bit bit rate are carried over |
| LegacyMss.ThumbnailExtension | FFmpegInterop/Source/FFmpegInteropMSS.cpp:526-535 | PNG cover art gets .png, BMP gets .bmp, and every other codec .jpeg |
| LegacyMss.ExtractThumbnail | FFmpegInterop/Source/FFmpegInteropMSS.cpp:516-547 | a thumbnail exists exactly when the thumbnail index names a stream that is cover art, and holds that stream's picture |
| LegacyMss.ThumbnailOnlyForCoverArt | FFmpegInterop/Source/FFmpegInteropMSS.cpp:366-379 | a thumbnail is extracted exactly when the best video stream is cover art, and then no video stream is kept: cover art is never played as video |
| LegacyMss.SeekTargetNotPastStart | FFmpegInterop/Source/FFmpegInteropMSS.cpp:707-708 | the seek target converted back to 100 ns units never lies past the start position, and equals it when the position is a whole number of ticks |
| LegacyMss.SeekStream | FFmpegInterop/Source/FFmpegInteropMSS.cpp:702-703 | the seek goes to the video stream when there is one, else to the audio stream, else to none (-1) |
| LegacyMss.SampleRoute | FFmpegInterop/Source/FFmpegInteropMSS.cpp:738-757 | without a media stream source a request is left alone; a request for the audio or video descriptor goes to that provider exactly when it exists; anything else gets a null sample |
| LegacyMss.MediaDuration | FFmpegInterop/Source/FFmpegInteropMSS.cpp:452 | the duration times 10^7 wrapped to int64_t, divided by 10^6 and truncated: the media duration stays within the int64_t range divided by 10^6 |
| LegacyMss.MediaDurationWithoutOverflow | FFmpegInterop/Source/FFmpegInteropMSS.cpp:452 | while the int64_t product does not overflow, the media duration in 100 ns units is ten times the format's duration in microseconds |
| LegacyMss.UnknownDurationIsZero | FFmpegInterop/Source/FFmpegInteropMSS.cpp:452 | an unknown duration (AV_NOPTS_VALUE) wraps to a media duration of 0, so a live stream accepts a start position of 0 |
| LegacyMss.LongDurationWrapsNegative | FFmpegInterop/Source/FFmpegInteropMSS.cpp:452 | a duration of 10^12 microseconds overflows the product and gives a negative media duration |
| LegacyMss.FFmpegInteropMSS.constructor | FFmpegInterop/Source/FFmpegInteropMSS.cpp:53-71 | a new object has no options, no stream indices, no providers and no seekability |
| LegacyMss.FFmpegInteropMSS.ParseOptions | FFmpegInterop/Source/FFmpegInteropMSS.cpp:659-693 | the result and the dictionary are those of adding every option in turn until the first av_dict_set that fails; no other field changes |
| LegacyMss.FFmpegInteropMSS.InitStreams | FFmpegInterop/Source/FFmpegInteropMSS.cpp:305-502 | the stream indices are the best streams with cover art moved to the thumbnail; the duration is MediaDuration, with its int64_t wrap; a positive duration makes the source seekable and otherwise its buffer time is 0 |
| LegacyMss.FFmpegInteropMSS.OnStarting | FFmpegInterop/Source/FFmpegInteropMSS.cpp:695-736 | a start position within the duration sets the actual start position, seeks the video stream (else the audio stream) to the converted target when there is one, and flushes both providers exactly when that seek succeeds; otherwise nothing changes |
| SubtitleCues.UpToNul | FFmpegInterop/Source/SubtitlesProvider.h:75 | the text read from a packet buffer is its longest prefix without a NUL, ending where the first NUL is |
| SubtitleCues.Find | FFmpegInterop/Source/SubtitlesProvider.h:83-86 | a search finds the first index at or after the start that holds the character, and finds nothing exactly when no such index exists |
| SubtitleCues.StripLeavesNoOpen | FFmpegInterop/Source/SubtitlesProvider.h:80-107 | after the stripping loop no opening bracket is left and the text is no longer than before |
| SubtitleCues.StripPlainText | FFmpegInterop/Source/SubtitlesProvider.h:83-84 | text without an opening bracket is kept as it is |
| SubtitleCues.StripSpan | FFmpegInterop/Source/SubtitlesProvider.h:86-96 | a span from an opening bracket to the first closing bracket after it is removed, and the rest is stripped in turn |
| SubtitleCues.StripUnclosed | FFmpegInterop/Source/SubtitlesProvider.h:86-95 | an opening bracket with no closing bracket after it cuts the text before it |
| SubtitleCues.StripPrefix | FFmpegInterop/Source/SubtitlesProvider.h:80-107 | stripping a text behind a prefix without an opening bracket strips only the text |
| SubtitleCues.FindLast | FFmpegInterop/Source/SubtitlesProvider.h:145 | the last comma found holds a comma with none after it, and none is found exactly when there is no comma |
| SubtitleCues.LastField | FFmpegInterop/Source/SubtitlesProvider.h:144-150 | the dialogue text is the non-empty text after the last comma, which contains no comma |
| SubtitleCues.LastFieldOf | FFmpegInterop/Source/SubtitlesProvider.h:145-150 | with something before the last comma and something after it, the text is what follows it; text without a comma gives no cue |
| SubtitleCues.CueText | FFmpegInterop/Source/SubtitlesProvider.h:70-157 | SubRip, SRT, plain text and WebVTT cues are the packet text with HTML tags stripped, and there is no cue exactly when that text is empty (an empty String^ is null); ASS and SSA cues are the last field of the text with override blocks stripped; other codecs give no cue; a cue text is never empty |
| SubtitleCues.CueTextIsClean | FFmpegInterop/Source/SubtitlesProvider.h:70-157 | a cue's text is never empty and never keeps an opening tag or override bracket, and ASS/SSA text never keeps a comma |
| SubtitleCues.EmptyTextMakesNoCue | FFmpegInterop/Source/SubtitlesProvider.h:109-157 | a SubRip, SRT, plain-text or WebVTT packet that is empty, holds only tags, or opens a tag it never closes makes no cue |
| SubtitleCues.CueAdded | FFmpegInterop/Source/SubtitlesProvider.h:178-214 | adding a cue puts exactly that cue on the track or among the held-back cues, and keeps the duplicate record |
| SubtitleCues.CuesExited | FFmpegInterop/Source/SubtitlesProvider.h:216-232 | when a cue exits, all held-back cues move onto the track and none stays held back |
| SubtitleCues.HeldBackCueAddedOnExit | FFmpegInterop/Source/SubtitlesProvider.h:184-232 | a cue held back because every active cue ends by its start goes onto the track at the next exit, after those held back before it |
| SubtitleCues.PacketQueued | FFmpegInterop/Source/SubtitlesProvider.h:48-174 | a packet whose position was already turned into a cue is dropped and changes nothing; otherwise its position is recorded and the maximum raised when it lies beyond it |
| SubtitleCues.PacketReadTwiceIsDropped | FFmpegInterop/Source/SubtitlesProvider.h:50-58 | a packet read a second time, as after a seek, is dropped and changes nothing |
| SubtitleCues.EachPacketOneCue | FFmpegInterop/Source/SubtitlesProvider.h:157-171 | a packet that is not dropped yields exactly the cue its text gives, timed from its timestamp less the start offset, or no cue when its text gives none or strips to nothing |
| SubtitleCues.UnknownPositionOnlyOnce | FFmpegInterop/Source/SubtitlesProvider.h:50-60 | once one packet of unknown position (-1) has been recorded, every later one is dropped as a duplicate |
| SubtitleCues.SubtitlesProvider.constructor | FFmpegInterop/Source/SubtitlesProvider.h:234-238 | a new provider has seen no packet, has no held-back cue and an empty track |
| SubtitleCues.SubtitlesProvider.StripEffects | FFmpegInterop/Source/SubtitlesProvider.h:80-107 | the stripping loop on a string computes Strip |
| SubtitleCues.SubtitlesProvider.StripTurn | FFmpegInterop/Source/SubtitlesProvider.h:83-106 | one turn of the stripping loop keeps what Strip gives and either ends the loop with the stripped text or makes the string shorter |
| SubtitleCues.SubtitlesProvider.CleanText | FFmpegInterop/Source/SubtitlesProvider.h:70-155 | the text cleanup of QueuePacket gives CueText: no text when the stripped SubRip/WebVTT text is empty |
| SubtitleCues.SubtitlesProvider.AddCue | FFmpegInterop/Source/SubtitlesProvider.h:178-214 | the new state is CueAdded of the old |
| SubtitleCues.SubtitlesProvider.OnCueExited | FFmpegInterop/Source/SubtitlesProvider.h:216-232 | the new state is CuesExited of the old |
| SubtitleCues.SubtitlesProvider.QueuePacket | FFmpegInterop/Source/SubtitlesProvider.h:48-174 | the new state is PacketQueued of the old |

## Left out

- FFmpeg's demuxer, decoders, resampler and scaler, and the Windows media classes, are black boxes. Their results are inputs of the model: the reads of `av_read_frame`, the decoder's verdict on a packet, the return values of the `swr_*` and `av_*` calls, and allocation outcomes. Uncompressed video decoding and the decoding providers built on the scaler are not part of this model.
- Timestamp conversions go through `av_q2d(...) * 10000000` in double precision. The model converts with exact integer arithmetic and rounds down, so the floating-point rounding is not modelled.
- `LegacyMss.SeekTarget` divides in integer arithmetic truncated toward zero, while the source divides a double. It differs from the source by that rounding.
- `BitstreamReading.BitstreamReader.ReadUExpGolomb` returns the unbounded value 2^k - 1 + x. With 32 leading zeros the source shifts a 32-bit int by 32 (undefined behaviour) and its uint32 sum wraps. The model does not capture either.
- `BitstreamReading.BitstreamReader.ReadSExpGolomb` maps the code number without the int32 casts of the source, so codes of 2^32 - 1 or more are not truncated.
- Locks, mutexes, async work and event concurrency are not modelled. The media stream source's event handlers run one after another.
- Text is `seq<char>`. The UTF-8 to wide-string conversions of subtitle text, URIs and option strings are not modelled.
- The subtitle track's regions, styles and exceptions are not modelled. The track is the list of cues added to it.
- In the older subtitle provider `maxCuePosition` is never initialised in the source. The model starts it at 0, as zeroed memory would.
- The subtitle provider's header and implementation disagree on its base class. The model follows the implementation's deferred-request logic.
- Thumbnail bytes are written through a `DataWriter` into a buffer. The model returns the choice of picture and file extension, not the buffer.
- `InitFFmpegContext` of the newer media stream source is modelled for stream selection, the provider map, duration and seekability. Codec context allocation and the descriptors built by `StreamFactory` are not part of this model.
- In the newer media stream source a stream descriptor is identified with its stream index.
- The older media stream source's `OnSampleRequested` is modelled as routing only: which provider answers. The sample it makes is the provider's concern.
- The `Create*` overloads without an options or media stream source argument forward null ones and are not modelled separately. The four-argument `CreateFFmpegInteropMSSFromStream` also drops the options it is given (see "Findings").
- InteropMss.FFmpegInteropMSS.OnSampleRequested: every stream is served by the base provider's `GetSample`. The virtual `GetSample`, `QueuePacket`, `Flush` and `GetSampleData` overrides declared in SampleProvider.h (subtitle deferral, NAL unit framing, decoding, AV1 and FLAC headers) are not dispatched here. Those providers' own behaviour is modelled in their own modules.
- FfmpegMss.WriteAnnexBPacket: reads within the 64 zeroed padding bytes that FFmpeg keeps behind a packet are modelled. A payload that runs past the padding is undefined behaviour in the source. The model then stops, marks the outcome undefined and keeps the bytes written before it.
- FfmpegMss.FfmpegSource.VideoSampleBuffer: the SPS and PPS reads go through the extradata's padding in the same way, and a set past it is marked undefined. A missing (null) extradata is not distinguished from an empty one.
- HevcLegacy.LegacyWalk: array headers read past the record are taken from zeroed padding however far past the record they lie. FFmpeg zeroes 64 bytes behind extradata, and reads beyond them are undefined in the source.
- Nalu.NaluSampleProvider.TransformSample: in Annex B mode the payload length is the corrected unit length less its start code (see "Findings"). As written, each copy but the last also takes the next start code and the first 4 bytes of the next unit, and the last one reads 4 bytes of padding. That as-written transform is not modelled.
- Utility.AVImage.MoveAssign: neither this move assignment nor AVSamples' returns `*this` in the source (Utility.h:186-193 and 223-229), which is undefined behaviour for a caller that uses the result. The methods return nothing.
- The `SetEncodingProperties` and other property-set code that builds Media Foundation attribute stores is not modelled. `StreamFactory` models the choice of subtype and the user-data flag it feeds.
- The move constructors of AVImage and AVSamples are not modelled. Only `Reset` and move assignment are modelled.
- `CreatePropValueFromMFAttribute` in Utility.cpp builds Win32 property values through Media Foundation calls, so it is not modelled.
- File I/O is not modelled: `FileStreamRead`, `FileStreamSeek`, and the legacy `OpenFile` of the early stream source.
- The ACM and VFW sample providers wrap Windows codecs. `StreamFactory` chooses them, but what they do is not part of this model.
- Several near-duplicate copies are not part of this model:
  - the older H264AVCSampleProvider in Source/, which writes the start code before its bounds check;
  - the startOffset clamp of Source/MediaSampleProvider.cpp;
  - the older FFmpegInteropMSS copy under FFmpegSample;
  - Source/H264SampleProvider.cpp, NALPacketSampleProvider.cpp and CompressedSampleProvider.cpp.
- `UncompressedAudio`: after AVERROR_INPUT_CHANGED the resampler is reconfigured and the conversion is retried once. The reconfiguration's `swr_*` calls are modelled by their return values.
- UncompressedAudio.UncompressedAudioSampleProvider.GetSampleData: the model records that the output frame is left cleared after each successful resample, and that only a newly allocated resampler sets it up again. What `swr_convert_frame` then returns for the cleared frame is not derived: it is one of the given return values, because the resampler is a black box here.
- LegacyMss.MediaDuration: the int64_t product overflows for unknown (AV_NOPTS_VALUE) and very long durations. Signed overflow is undefined behaviour in C++, and the model takes the two's-complement wrap that 64-bit multiplication gives. The division by a double is modelled as exact division truncated toward zero, so the double's rounding of products beyond 2^53 is not modelled.
- MediaSampleProviding.MediaSampleProvider.GetNextPacket: the virtual `WriteAVPacketToStream` is dispatched on a `PacketWriter` value fixed when the provider is built: the base copy or the H.264 AVC override. The model has no subclasses. The bytes a failed write leaves in the data writer are not modelled, since this provider makes no sample after a failed fetch. The legacy audio provider, which does keep them, has them in `UncompressedAudioLegacy.Fetch`'s bytes.
- The counter of skipped broken packets is an unbounded `nat`. It never goes past 10 within one request, so the source's integer width plays no part.

## Findings

| source | as written | input that shows it | evidently intended | confidence | as-written member | corrected member |
|---|---|---|---|---|---|---|
| FFmpegInterop/BitstreamReader.cpp:52-58 | SkipN carries a bit index into the byte index only when it is exactly 8 | a cursor at bit 5 skipping 4 bits is left at bit index 9 of the same byte | a bit index of 8 or more carries into the next byte | not executed | BitstreamReading.SkipAsWrittenLeavesBitIndexOutOfRange | BitstreamReading.BitstreamReader.SkipN |
| FFmpegInterop/NALUSampleProvider.cpp:32 | the Annex B length fails when the buffer does start with a start code | any buffer that starts with 00 00 00 01 | fail only when the buffer does not start with a start code | not executed | Nalu.AnnexBNaluLengthAsWrittenRejectsStartCode | Nalu.AnnexBNaluLengthMeaning |
| FFmpegInterop/NALUSampleProvider.cpp:40 | the Annex B length returned is the offset just past the next start code, while GetSpsPpsData steps by it as the whole unit and TransformSample copies it as the payload | the extradata 00 00 00 01 40 01 02 03 00 00 00 01 42 04 05 06 gives 12, and the scan from offset 12 does not begin with a start code | return the offset where the next start code begins (the unit length, start code included) | not executed | Nalu.AnnexBNaluLengthPastStartCodeSplitsUnit | Nalu.AnnexBNaluLengthsPartition |
| FFmpegInterop/Source/FFmpegInteropMSS.cpp:119-122 | the four-argument CreateFFmpegInteropMSSFromStream forwards null options instead of its ffmpegOptions | any options, such as rtsp_transport=tcp, passed to that overload | forward ffmpegOptions | not executed | LegacyMss.StreamOverloadDropsOptions | LegacyMss.StreamOverloadKeepsOptions |
| FFmpegInterop/NALUSampleProvider.cpp:75 | the bounds check adds the prefix size to the length in 32-bit unsigned arithmetic, which wraps | the 4-byte buffer FF FF FF FF with length size 4 passes the check | reject a unit longer than the rest of the buffer | not executed | Nalu.AvcNaluLengthAsWrittenWraps | Nalu.GetAvcNaluLength |
| FFmpegInterop/H264SampleProvider.cpp:104-105 | the choice is inverted: only a non-key packet with a length size other than 4 is rewritten in place, where the start code overwrites payload, while a non-key packet with 4-byte lengths, which could be rewritten in place, is copied to a new buffer (a key frame is always copied) | the non-key packet 00 03 0A 0B 0C with 2-byte lengths becomes 00 00 00 01 0C | rewrite in place only a non-key packet with 4-byte lengths | not executed | H264.InPlaceAsWrittenLosesPayload | H264.InPlaceIsTransparent |
| FFmpegInterop/H264SampleProvider.cpp:135 | the overrun check adds in 32-bit unsigned arithmetic, which wraps | a packet FF FF FF FF with length size 4 passes the check | reject a unit that runs past the packet | not executed | H264.UnitOverrunCheckWraps | H264.TransformRoundTrip |
| FFmpegInterop/H264SampleProvider.cpp:204 | `data[4] & 0x03 + 1` parses as `data[4] & 4` | byte 0xFD gives 4 instead of 2; byte 0xFB gives 0 instead of 4 | `(data[4] & 0x03) + 1` | not executed | H264.NaluLengthSizeAsWrittenIsZeroOrFour | H264.NaluLengthSizeFieldRoundTrip |
| FFmpegInterop/HEVCSampleProvider.cpp:71 | `data[21] & 0x03 + 1` parses as `data[21] & 4` | byte 21 of 0xF3 gives 0 instead of 4 | `(data[21] & 0x03) + 1` | not executed | Hevc.NaluLengthSizeAsWrittenMisreads | Hevc.HevcFormatOfRecord |
| FFmpegInterop/H264AVCSampleProvider.cpp:68 | the extradata guard joins its two tests with `&&` | non-null extradata of 3 bytes, or null extradata with size 8, pass the guard | refuse when the extradata is null or shorter than 8 bytes | not executed | H264Avc.ExtradataTestAsWrittenAdmits | H264Avc.SpsPpsBufferRoundTrip |
| FFmpegInterop/Source/HEVCSampleProvider.cpp:116-120 | a unit length read as a signed int is admitted when negative | extradata 80 00 00 00 00 | reject a negative length | not executed | HevcLegacy.NegativeLengthAdmittedAsWritten | HevcLegacy.LegacyPlain |
| FFmpegInterop/Utility.h:223-229 | move assignment swaps the data pointers but not the sizes | moving a filled buffer into an empty one leaves the target with its data and size -1 | data and size move together | not executed | Utility.MoveIntoEmptyAsWritten | Utility.AVSamples.MoveAssign |
| FFmpegInterop/FFmpegInteropMSS.cpp:273-286 | the providers are told to seek to the target in AV_TIME_BASE units, but they read it as a timestamp in the stream's time base | a seek to 1 s on a 1/90000 stream places the next untimed packet at 111111111 (100 ns units), about 11.1 s | seed the providers with the target rescaled to the stream's time base, rounded down | not executed | InteropMss.SeekSeedAsWrittenIsInWrongUnit | InteropMss.RescaledSeedLandsAtTarget |
