// The H.264 sample provider for the AVC bitstream format.
//
// The stream's extradata is an AVCDecoderConfigurationRecord (ISO/IEC
// 14496-15 section 5.3.3.1): a version byte of 1, profile, compatibility and
// level bytes, the NAL unit length size, and the sequence and picture
// parameter sets, each behind a 2-byte big-endian length. AVCCodecPrivate
// converts the parameter sets to start-code format once; TransformSample
// then rewrites every sample from length prefixes to start codes,
// prepending the parameter sets on key frames.

module H264 {
  import opened Common
  import Nalu

  // ---------------------------------------------------------------------
  // ReadNaluLength

  /**
   * ReadNaluLength: the first lengthSize (1 to 4) bytes of data as a
   * big-endian number; any other size, or fewer bytes than the size, fails.
   */
  function ReadNaluLength(lengthSize: nat, data: seq<Byte>): (r: Result<nat>)
    ensures r.Ok? <==> 1 <= lengthSize <= 4 && lengthSize <= |data|
    ensures r.Err? ==> r.error == MfEInvalidFileFormat
  {
    if lengthSize > |data| then Err(MfEInvalidFileFormat)
    else if lengthSize == 1 then Ok(data[0])
    else if lengthSize == 2 then Ok(data[0] as nat * 0x100 + data[1])
    else if lengthSize == 3 then Ok(data[0] as nat * 0x1_0000 + data[1] as nat * 0x100 + data[2])
    else if lengthSize == 4 then Ok(data[0] as nat * 0x100_0000 + data[1] as nat * 0x1_0000 + data[2] as nat * 0x100 + data[3])
    else Err(MfEInvalidFileFormat)
  }

  /** The length read is the big-endian value of the prefix. */
  lemma ReadNaluLengthIsBigEndian(lengthSize: nat, data: seq<Byte>)
    requires 1 <= lengthSize <= 4 && lengthSize <= |data|
    ensures ReadNaluLength(lengthSize, data) == Ok(BigEndian(data[..lengthSize]))
  {
    BigEndianPrefixIsBigEndian(data, lengthSize);
    assert BigEndianPrefix(data, 1) == data[0];
    if lengthSize >= 2 {
      assert BigEndianPrefix(data, 2) == data[0] as nat * 0x100 + data[1];
    }
    if lengthSize >= 3 {
      assert BigEndianPrefix(data, 3) == data[0] as nat * 0x1_0000 + data[1] as nat * 0x100 + data[2];
    }
  }

  /** A value written as a k-byte big-endian prefix reads back. */
  lemma ReadNaluLengthOfPrefixed(k: nat, x: nat, rest: seq<Byte>)
    requires 1 <= k <= 4 && x < Pow2(8 * k)
    ensures ReadNaluLength(k, ToBigEndian(x, k) + rest) == Ok(x)
  {
    var data := ToBigEndian(x, k) + rest;
    assert data[..k] == ToBigEndian(x, k);
    BigEndianOfToBigEndian(x, k);
    ReadNaluLengthIsBigEndian(k, data);
  }

  /** The 2-byte big-endian length in front of a parameter set. */
  function Uint16(n: nat): (r: seq<Byte>)
    requires n < 0x1_0000
    ensures ReadNaluLength(2, r) == Ok(n)
  {
    [n / 0x100, n % 0x100]
  }

  // ---------------------------------------------------------------------
  // AVCCodecPrivate::ParseParameterSets

  /** The parameter sets read from a record: start-code framed, their lengths, and the number of bytes read. */
  datatype ParsedSets = ParsedSets(bytes: seq<Byte>, lengths: seq<nat>, end: nat)

  /** A set already read, taking skip bytes, put in front of the outcome of reading the rest. */
  function PrependSets(bytes: seq<Byte>, lengths: seq<nat>, skip: nat, r: Result<ParsedSets>): Result<ParsedSets>
  {
    match r
    case Err(e) => Err(e)
    case Ok(s) => Ok(ParsedSets(bytes + s.bytes, lengths + s.lengths, skip + s.end))
  }

  /**
   * ParseParameterSets' loop over the remaining data with count sets still
   * to read: each set is a 2-byte length and that many payload bytes, and is
   * emitted as a start code and the payload, with length 4 + payload.
   */
  function ParameterSets(count: nat, data: seq<Byte>): Result<ParsedSets>
  {
    if count == 0 then Ok(ParsedSets([], [], 0))
    else match ReadNaluLength(2, data)
      case Err(e) => Err(e)
      case Ok(n) =>
        if 2 + n > |data| then Err(MfEInvalidFileFormat)
        else PrependSets(START_CODE + data[2..2 + n], [4 + n], 2 + n, ParameterSets(count - 1, data[2 + n..]))
  }

  /** A parameter set short enough for its 2-byte length. */
  type ParameterSet = s: seq<Byte> | |s| < 0x1_0000

  /** The parameter sets laid out as a configuration record holds them: 2-byte length, payload. */
  function EncodeSets(sets: seq<ParameterSet>): seq<Byte>
  {
    if sets == [] then [] else Uint16(|sets[0]|) + sets[0] + EncodeSets(sets[1..])
  }

  /** NAL units (parameter sets or slices) in start-code format. */
  function FrameUnits(units: seq<seq<Byte>>): seq<Byte>
  {
    if units == [] then [] else START_CODE + units[0] + FrameUnits(units[1..])
  }

  /** The recorded length of each unit in start-code format. */
  function UnitLengths(units: seq<seq<Byte>>): seq<nat>
  {
    if units == [] then [] else [4 + |units[0]|] + UnitLengths(units[1..])
  }

  /** A set behind its 2-byte length is read, and reading goes on after it. */
  lemma ParameterSetsFirst(count: nat, payload: seq<Byte>, after: seq<Byte>)
    requires count > 0 && |payload| < 0x1_0000
    ensures ParameterSets(count, Uint16(|payload|) + payload + after)
            == PrependSets(START_CODE + payload, [4 + |payload|], 2 + |payload|, ParameterSets(count - 1, after))
  {
    var n := |payload|;
    var data := Uint16(n) + payload + after;
    assert data[..2] == Uint16(n);
    assert data[2..2 + n] == payload;
    assert data[2 + n..] == after;
  }

  /**
   * Reading encoded sets gives them back in start-code format, with their
   * lengths, and consumes exactly their encoding.
   */
  lemma {:induction false} ParameterSetsRoundTrip(sets: seq<ParameterSet>, rest: seq<Byte>)
    ensures ParameterSets(|sets|, EncodeSets(sets) + rest) == Ok(ParsedSets(FrameUnits(sets), UnitLengths(sets), |EncodeSets(sets)|))
  {
    if sets != [] {
      var s, tail := sets[0], sets[1..];
      assert EncodeSets(sets) + rest == Uint16(|s|) + s + (EncodeSets(tail) + rest);
      ParameterSetsFirst(|sets|, s, EncodeSets(tail) + rest);
      ParameterSetsRoundTrip(tail, rest);
    }
  }

  /** The recorded lengths describe the framed sets exactly, and no more than the data is read. */
  lemma {:induction false} ParameterSetsLengths(count: nat, data: seq<Byte>)
    requires ParameterSets(count, data).Ok?
    ensures Sum(ParameterSets(count, data).value.lengths) == |ParameterSets(count, data).value.bytes|
    ensures ParameterSets(count, data).value.end <= |data|
  {
    if count > 0 {
      var n := ReadNaluLength(2, data).value;
      var rest := ParameterSets(count - 1, data[2 + n..]);
      ParameterSetsLengths(count - 1, data[2 + n..]);
      SumAppend([4 + n], rest.value.lengths);
      assert Sum([4 + n]) == 4 + n + Sum([4 + n][1..]);
    }
  }

  /**
   * One set of ParseParameterSets' loop: the set of length n at offset pos
   * is appended to bytes and lengths, after which count' sets are left at pos'.
   */
  lemma ParameterSetsStep(data: seq<Byte>, n: nat, goal: Result<ParsedSets>,
                          count: nat, pos: nat, bytes: seq<Byte>, lengths: seq<nat>,
                          count': nat, pos': nat, bytes': seq<Byte>, lengths': seq<nat>)
    requires pos + 2 <= |data| && ReadNaluLength(2, data[pos..]) == Ok(n) && pos' == pos + 2 + n <= |data|
    requires count == count' + 1
    requires bytes' == bytes + START_CODE + data[pos + 2..pos'] && lengths' == lengths + [4 + n]
    requires goal == PrependSets(bytes, lengths, pos, ParameterSets(count, data[pos..]))
    ensures goal == PrependSets(bytes', lengths', pos', ParameterSets(count', data[pos'..]))
  {
    var payload := data[pos + 2..pos'];
    var rest := ParameterSets(count', data[pos'..]);
    assert ParameterSets(count, data[pos..]) == PrependSets(START_CODE + payload, [4 + n], 2 + n, rest) by {
      assert data[pos..][2..2 + n] == payload;
      assert data[pos..][2 + n..] == data[pos'..];
    }
    PrependSetsTwice(bytes, lengths, pos, START_CODE, payload, [4 + n], 2 + n, rest);
  }

  /** Putting two reads in front of a third is putting their concatenation in front. */
  lemma PrependSetsTwice(bytes: seq<Byte>, lengths: seq<nat>, skip: nat, code: seq<Byte>, payload: seq<Byte>,
                         lengths2: seq<nat>, skip2: nat, r: Result<ParsedSets>)
    ensures PrependSets(bytes, lengths, skip, PrependSets(code + payload, lengths2, skip2, r))
            == PrependSets(bytes + code + payload, lengths + lengths2, skip + skip2, r)
  {
    if r.Ok? {
      assert bytes + (code + payload + r.value.bytes) == bytes + code + payload + r.value.bytes;
      assert lengths + (lengths2 + r.value.lengths) == lengths + lengths2 + r.value.lengths;
    }
  }

  // ---------------------------------------------------------------------
  // AVCCodecPrivate

  /** AVCCodecPrivate's MIN_SIZE: the smallest record, with no parameter sets. */
  const AVC_MIN_SIZE: nat := 7

  /** What AVCCodecPrivate keeps of a configuration record. */
  datatype AvcConfig = AvcConfig(profile: Byte, level: Byte, naluLengthSize: nat,
                                 spsPps: seq<Byte>, spsPpsLengths: seq<nat>)

  /**
   * The NAL unit length size as AVCCodecPrivate computes it: `data[4] &
   * 0x03 + 1` parses as `data[4] & (0x03 + 1)`, the bit of weight 4.
   */
  function NaluLengthSizeAsWritten(b: Byte): nat
  {
    (b / 4) % 2 * 4
  }

  /** The NAL unit length size the record stores: lengthSizeMinusOne (the two low bits) plus one. */
  function NaluLengthSizeField(b: Byte): nat
  {
    b % 4 + 1
  }

  /** As written the size is never 1, 2 or 3, and is 0 or 4 regardless of the low bits. */
  lemma NaluLengthSizeAsWrittenIsZeroOrFour(b: Byte)
    ensures NaluLengthSizeAsWritten(b) == 0 || NaluLengthSizeAsWritten(b) == 4
    ensures NaluLengthSizeAsWritten(0xFD) == 4 && NaluLengthSizeField(0xFD) == 2
    ensures NaluLengthSizeAsWritten(0xFB) == 0 && NaluLengthSizeField(0xFB) == 4
  {
  }

  /** The corrected size reads back every size a record can state, with the reserved bits set. */
  lemma NaluLengthSizeFieldRoundTrip(k: nat)
    requires 1 <= k <= 4
    ensures NaluLengthSizeField(0xFC + (k - 1)) == k
  {
  }

  /**
   * AVCCodecPrivate's constructor: the record must be present, at least
   * MIN_SIZE bytes long and of version 1; then come the sequence parameter
   * sets (count in the low 5 bits of byte 5), a byte holding the picture
   * parameter set count, and the picture parameter sets.
   */
  function ParseAvcConfig(data: Option<seq<Byte>>): Result<AvcConfig>
  {
    if data.None? then Err(MfEInvalidFileFormat)
    else
      var d := data.value;
      if |d| < AVC_MIN_SIZE || d[0] != 1 then Err(MfEInvalidFileFormat)
      else match ParameterSets(d[5] % 32, d[6..])
        case Err(e) => Err(e)
        case Ok(sps) =>
          var pos := 6 + sps.end;
          if pos + 1 > |d| then Err(MfEInvalidFileFormat)
          else match ParameterSets(d[pos], d[pos + 1..])
            case Err(e) => Err(e)
            case Ok(pps) =>
              Ok(AvcConfig(d[1], d[3], NaluLengthSizeField(d[4]), sps.bytes + pps.bytes, sps.lengths + pps.lengths))
  }

  /** A record laid out as ISO/IEC 14496-15 section 5.3.3.1 describes it, with all reserved bits set. */
  function EncodeAvcConfig(profile: Byte, compatibility: Byte, level: Byte, lengthSize: nat,
                           sps: seq<ParameterSet>, pps: seq<ParameterSet>): seq<Byte>
    requires 1 <= lengthSize <= 4 && |sps| < 32 && |pps| < 256
  {
    [1, profile, compatibility, level, 0xFC + (lengthSize - 1), 0xE0 + |sps|] + EncodeSets(sps) + [|pps|] + EncodeSets(pps)
  }

  /** Parsing an encoded record gives back its profile, level, length size and parameter sets. */
  lemma AvcConfigRoundTrip(profile: Byte, compatibility: Byte, level: Byte, lengthSize: nat,
                           sps: seq<ParameterSet>, pps: seq<ParameterSet>, rest: seq<Byte>)
    requires 1 <= lengthSize <= 4 && |sps| < 32 && |pps| < 256
    ensures ParseAvcConfig(Some(EncodeAvcConfig(profile, compatibility, level, lengthSize, sps, pps) + rest))
            == Ok(AvcConfig(profile, level, lengthSize, FrameUnits(sps) + FrameUnits(pps), UnitLengths(sps) + UnitLengths(pps)))
  {
    var header: seq<Byte> := [1, profile, compatibility, level, 0xFC + (lengthSize - 1), 0xE0 + |sps|];
    var es, ep := EncodeSets(sps), EncodeSets(pps);
    var d := header + es + [|pps|] + ep + rest;
    assert EncodeAvcConfig(profile, compatibility, level, lengthSize, sps, pps) + rest == d by {
      assert EncodeAvcConfig(profile, compatibility, level, lengthSize, sps, pps) == header + es + [|pps|] + ep;
    }
    assert header[5] % 32 == |sps| by { assert header[5] == 7 * 32 + |sps|; }
    assert NaluLengthSizeField(header[4]) == lengthSize by { NaluLengthSizeFieldRoundTrip(lengthSize); }
    AvcRecordLayout(header, es, |pps|, ep, rest);
    AvcConfigOfLayout(d, header, sps, pps, rest);
  }

  /** Where the parts of a record sit in it. */
  lemma AvcRecordLayout(header: seq<Byte>, es: seq<Byte>, count: Byte, ep: seq<Byte>, rest: seq<Byte>)
    requires |header| == 6
    ensures var d := header + es + [count] + ep + rest;
            && |d| >= 7 && d[..6] == header
            && d[6..] == es + ([count] + ep + rest)
            && d[6 + |es|] == count && d[6 + |es| + 1..] == ep + rest
  {
    var d := header + es + [count] + ep + rest;
    assert d == header + (es + ([count] + (ep + rest)));
    assert d[6 + |es|..] == [count] + (ep + rest);
  }

  /** ParseAvcConfig on a record whose parts sit where AvcRecordLayout puts them. */
  lemma AvcConfigOfLayout(d: seq<Byte>, header: seq<Byte>, sps: seq<ParameterSet>, pps: seq<ParameterSet>, rest: seq<Byte>)
    requires |pps| < 256
    requires |header| == 6 && header[0] == 1 && header[5] % 32 == |sps|
    requires |d| >= 7 && d[..6] == header
    requires d[6..] == EncodeSets(sps) + ([|pps| as Byte] + EncodeSets(pps) + rest)
    requires d[6 + |EncodeSets(sps)|] == |pps| && d[6 + |EncodeSets(sps)| + 1..] == EncodeSets(pps) + rest
    ensures ParseAvcConfig(Some(d)) == Ok(AvcConfig(header[1], header[3], NaluLengthSizeField(header[4]),
                                                    FrameUnits(sps) + FrameUnits(pps), UnitLengths(sps) + UnitLengths(pps)))
  {
    var es := EncodeSets(sps);
    var first := ParsedSets(FrameUnits(sps), UnitLengths(sps), |es|);
    var second := ParsedSets(FrameUnits(pps), UnitLengths(pps), |EncodeSets(pps)|);
    assert d[0] == 1 && d[1] == header[1] && d[3] == header[3] && d[4] == header[4] && d[5] % 32 == |sps| by {
      assert d[0] == d[..6][0] && d[1] == d[..6][1] && d[3] == d[..6][3] && d[4] == d[..6][4] && d[5] == d[..6][5];
    }
    ParameterSetsOfEncoded(d[5] % 32, sps, d[6..], [|pps| as Byte] + EncodeSets(pps) + rest);
    ParameterSetsOfEncoded(d[6 + |es|], pps, d[6 + |es| + 1..], rest);
    ParseAvcConfigOk(d, first, second, |es|);
  }

  /** ParameterSetsRoundTrip for a list read from the start of data. */
  lemma ParameterSetsOfEncoded(count: nat, sets: seq<ParameterSet>, data: seq<Byte>, rest: seq<Byte>)
    requires count == |sets| && data == EncodeSets(sets) + rest
    ensures ParameterSets(count, data) == Ok(ParsedSets(FrameUnits(sets), UnitLengths(sets), |EncodeSets(sets)|))
  {
    ParameterSetsRoundTrip(sets, rest);
  }

  /** ParseAvcConfig when both parameter-set lists are read. */
  lemma ParseAvcConfigOk(d: seq<Byte>, sps: ParsedSets, pps: ParsedSets, spsEnd: nat)
    requires |d| >= AVC_MIN_SIZE && d[0] == 1
    requires ParameterSets(d[5] % 32, d[6..]) == Ok(sps) && sps.end == spsEnd
    requires 6 + spsEnd + 1 <= |d|
    requires ParameterSets(d[6 + spsEnd], d[6 + spsEnd + 1..]) == Ok(pps)
    ensures ParseAvcConfig(Some(d)) == Ok(AvcConfig(d[1], d[3], NaluLengthSizeField(d[4]),
                                                    sps.bytes + pps.bytes, sps.lengths + pps.lengths))
  {
  }

  /** The parameter-set lengths of a parsed record describe its parameter-set bytes. */
  lemma AvcConfigLengths(data: Option<seq<Byte>>)
    requires ParseAvcConfig(data).Ok?
    ensures Sum(ParseAvcConfig(data).value.spsPpsLengths) == |ParseAvcConfig(data).value.spsPps|
    ensures 1 <= ParseAvcConfig(data).value.naluLengthSize <= 4
  {
    var d := data.value;
    var sps := ParameterSets(d[5] % 32, d[6..]).value;
    ParameterSetsLengths(d[5] % 32, d[6..]);
    var pos := 6 + sps.end;
    ParameterSetsLengths(d[pos], d[pos + 1..]);
    SumAppend(sps.lengths, ParameterSets(d[pos], d[pos + 1..]).value.lengths);
  }

  class AvcCodecPrivate {
    var profile: Byte
    var level: Byte
    var naluLengthSize: nat
    var spsPpsData: seq<Byte>
    var spsPpsNaluLengths: seq<nat>

    constructor (profile: Byte, level: Byte, naluLengthSize: nat)
      ensures this.profile == profile && this.level == level && this.naluLengthSize == naluLengthSize
      ensures spsPpsData == [] && spsPpsNaluLengths == []
    {
      this.profile := profile;
      this.level := level;
      this.naluLengthSize := naluLengthSize;
      spsPpsData := [];
      spsPpsNaluLengths := [];
    }

    function Config(): AvcConfig
      reads this
    {
      AvcConfig(profile, level, naluLengthSize, spsPpsData, spsPpsNaluLengths)
    }

    /**
     * ParseParameterSets: appends count sets read from data to the
     * parameter-set buffer and lengths, and returns the bytes read.
     */
    method ParseParameterSets(count: nat, data: seq<Byte>) returns (r: Result<nat>)
      modifies this
      ensures profile == old(profile) && level == old(level) && naluLengthSize == old(naluLengthSize)
      ensures ParameterSets(count, data).Err? ==> r == Err(ParameterSets(count, data).error)
      ensures ParameterSets(count, data).Ok? ==>
                var s := ParameterSets(count, data).value;
                && r == Ok(s.end)
                && spsPpsData == old(spsPpsData) + s.bytes
                && spsPpsNaluLengths == old(spsPpsNaluLengths) + s.lengths
    {
      ghost var goal := PrependSets(spsPpsData, spsPpsNaluLengths, 0, ParameterSets(count, data));
      assert data[0..] == data;
      var pos: nat := 0;
      var i: nat := 0;
      while i < count
        invariant i <= count && pos <= |data|
        invariant profile == old(profile) && level == old(level) && naluLengthSize == old(naluLengthSize)
        invariant goal == PrependSets(spsPpsData, spsPpsNaluLengths, pos, ParameterSets(count - i, data[pos..]))
      {
        var found := ReadNaluLength(2, data[pos..]);
        if found.Err? {
          return Err(found.error);
        }
        var n := found.value;
        if pos + 2 + n > |data| {
          return Err(MfEInvalidFileFormat);
        }
        ghost var pos0, bytes0, lengths0, left0 := pos, spsPpsData, spsPpsNaluLengths, count - i;
        spsPpsNaluLengths := spsPpsNaluLengths + [4 + n];
        spsPpsData := spsPpsData + START_CODE + data[pos + 2..pos + 2 + n];
        pos := pos + 2 + n;
        i := i + 1;
        ParameterSetsStep(data, n, goal, left0, pos0, bytes0, lengths0, count - i, pos, spsPpsData, spsPpsNaluLengths);
      }
      assert spsPpsData + [] == spsPpsData && spsPpsNaluLengths + [] == spsPpsNaluLengths;
      return Ok(pos);
    }

    /** AVCCodecPrivate's constructor, failing as the constructor throws. */
    static method Create(data: Option<seq<Byte>>) returns (r: Result<AvcCodecPrivate>)
      ensures r.Err? <==> ParseAvcConfig(data).Err?
      ensures r.Err? ==> r.error == ParseAvcConfig(data).error
      ensures r.Ok? ==> fresh(r.value) && r.value.Config() == ParseAvcConfig(data).value
    {
      if data.None? {
        return Err(MfEInvalidFileFormat);
      }
      var d := data.value;
      if |d| < AVC_MIN_SIZE || d[0] != 1 {
        return Err(MfEInvalidFileFormat);
      }
      var cp := new AvcCodecPrivate(d[1], d[3], NaluLengthSizeField(d[4]));
      var spsCount := d[5] % 32;
      var read := cp.ParseParameterSets(spsCount, d[6..]);
      if read.Err? {
        return Err(read.error);
      }
      var spsEnd := read.value;
      var pos := 6 + spsEnd;
      if pos + 1 > |d| {
        return Err(MfEInvalidFileFormat);
      }
      ghost var sps := ParameterSets(spsCount, d[6..]);
      assert cp.spsPpsData == sps.value.bytes && cp.spsPpsNaluLengths == sps.value.lengths;
      var ppsCount := d[pos];
      read := cp.ParseParameterSets(ppsCount, d[pos + 1..]);
      if read.Err? {
        return Err(read.error);
      }
      ghost var pps := ParameterSets(ppsCount, d[pos + 1..]);
      ParseAvcConfigOk(d, sps.value, pps.value, spsEnd);
      return Ok(cp);
    }
  }

  // ---------------------------------------------------------------------
  // TransformSample

  /** Whether the sample's first NAL unit is an AUD: the byte behind the first length prefix (none is read past the end). */
  predicate FirstIsAud(k: nat, pkt: seq<Byte>)
  {
    k < |pkt| && pkt[k] == Nalu.NALU_TYPE_AUD
  }

  /** The units framed so far: start-code bytes, recorded lengths, and whether the parameter sets are still to be copied. */
  datatype Framing = Framing(bytes: seq<Byte>, lengths: seq<nat>, copyPending: bool)

  /** Output already produced, put in front of the framing of the rest. */
  function PrependFraming(bytes: seq<Byte>, lengths: seq<nat>, r: Result<Framing>): Result<Framing>
  {
    match r
    case Err(e) => Err(e)
    case Ok(o) => Ok(Framing(bytes + o.bytes, lengths + o.lengths, o.copyPending))
  }

  /**
   * TransformSample's loop writing to a new buffer, over the rest of the
   * packet: each unit is a k-byte length and its payload, written behind a
   * start code with length 4 + payload. While copy is pending the parameter
   * sets go in front of the unit, or behind it when the sample begins with
   * an AUD; either way they are copied with the first unit.
   */
  function Frames(k: nat, spsPps: seq<Byte>, spsPpsLengths: seq<nat>, aud: bool, data: seq<Byte>, copy: bool): Result<Framing>
    decreases |data|
  {
    if data == [] then Ok(Framing([], [], copy))
    else match ReadNaluLength(k, data)
      case Err(e) => Err(e)
      case Ok(n) =>
        if k + n > |data| then Err(MfEInvalidFileFormat)
        else
          var before := copy && !aud;
          var after := copy && aud;
          PrependFraming((if before then spsPps else []) + (START_CODE + data[k..k + n]) + (if after then spsPps else []),
                         (if before then spsPpsLengths else []) + [4 + n] + (if after then spsPpsLengths else []),
                         Frames(k, spsPps, spsPpsLengths, aud, data[k + n..], false))
  }

  /** The packet with byte i set to v, when it has a byte i. */
  function Put(cur: seq<Byte>, i: nat, v: Byte): seq<Byte>
  {
    if i < |cur| then cur[i := v] else cur
  }

  /**
   * The packet after writing a start code over the four bytes at pos; the
   * bytes that would fall past the end are not written.
   */
  function Stamp(cur: seq<Byte>, pos: nat): (r: seq<Byte>)
    ensures |r| == |cur|
  {
    Put(Put(Put(Put(cur, pos, 0), pos + 1, 0), pos + 2, 0), pos + 3, 1)
  }

  /** Within the packet, stamping replaces the four bytes at pos by a start code. */
  lemma StampOverwrites(cur: seq<Byte>, pos: nat)
    requires pos + 4 <= |cur|
    ensures Stamp(cur, pos) == cur[..pos] + START_CODE + cur[pos + 4..]
  {
    var r := Stamp(cur, pos);
    var t := cur[..pos] + START_CODE + cur[pos + 4..];
    assert |r| == |t|;
    forall i | 0 <= i < |r| ensures r[i] == t[i] {
      if i < pos {
      } else if i < pos + 4 {
      } else {
      }
    }
  }

  /** The outcome of the in-place loop: the rewritten packet and the recorded lengths. */
  datatype Stamped = Stamped(packet: seq<Byte>, lengths: seq<nat>)

  function PrependLengths(lengths: seq<nat>, r: Result<Stamped>): Result<Stamped>
  {
    match r
    case Err(e) => Err(e)
    case Ok(o) => Ok(Stamped(o.packet, lengths + o.lengths))
  }

  /**
   * TransformSample's loop rewriting the packet in place from offset pos:
   * each unit's length prefix is overwritten by a start code, and the
   * lengths are read from the packet as rewritten so far.
   */
  function StampFrom(k: nat, cur: seq<Byte>, pos: nat): Result<Stamped>
    decreases if pos <= |cur| then |cur| - pos else 0
  {
    if pos >= |cur| then Ok(Stamped(cur, []))
    else match ReadNaluLength(k, cur[pos..])
      case Err(e) => Err(e)
      case Ok(n) =>
        if pos + k + n > |cur| then Err(MfEInvalidFileFormat)
        else PrependLengths([4 + n], StampFrom(k, Stamp(cur, pos), pos + k + n))
  }

  /**
   * TransformSample's result when it writes a new buffer or, otherwise,
   * rewrites the packet in place (which is never the case for a key frame).
   */
  function TransformWith(c: AvcConfig, pkt: seq<Byte>, isKeyFrame: bool, write: bool): Result<Nalu.TransformedSample>
    requires isKeyFrame ==> write
  {
    var k := c.naluLengthSize;
    if write then
      match Frames(k, c.spsPps, c.spsPpsLengths, FirstIsAud(k, pkt), pkt, isKeyFrame)
      case Err(e) => Err(e)
      case Ok(o) => Ok(Nalu.TransformedSample(o.bytes, o.lengths))
    else
      match StampFrom(k, pkt, 0)
      case Err(e) => Err(e)
      case Ok(o) => Ok(Nalu.TransformedSample(o.packet, o.lengths))
  }

  /** In place is possible only when the length prefix is as long as a start code; key frames get a new buffer. */
  predicate WritesBuffer(isKeyFrame: bool, k: nat)
  {
    isKeyFrame || k != 4
  }

  /** As written the in-place test is inverted: `isKeyFrame || canDoInplaceTransform`. */
  predicate WritesBufferAsWritten(isKeyFrame: bool, k: nat)
  {
    isKeyFrame || k == 4
  }

  function TransformSpec(c: AvcConfig, pkt: seq<Byte>, isKeyFrame: bool): Result<Nalu.TransformedSample>
  {
    TransformWith(c, pkt, isKeyFrame, WritesBuffer(isKeyFrame, c.naluLengthSize))
  }

  function TransformSpecAsWritten(c: AvcConfig, pkt: seq<Byte>, isKeyFrame: bool): Result<Nalu.TransformedSample>
  {
    TransformWith(c, pkt, isKeyFrame, WritesBufferAsWritten(isKeyFrame, c.naluLengthSize))
  }

  /** Units short enough for a k-byte length prefix. */
  predicate UnitsFit(k: nat, units: seq<seq<Byte>>)
  {
    forall i :: 0 <= i < |units| ==> |units[i]| < Pow2(8 * k)
  }

  /** A sample in the AVC layout: each unit behind its k-byte big-endian length. */
  function EncodeUnits(k: nat, units: seq<seq<Byte>>): seq<Byte>
  {
    if units == [] then [] else ToBigEndian(|units[0]|, k) + units[0] + EncodeUnits(k, units[1..])
  }

  /** The first unit behind its length prefix is framed, and framing goes on after it. */
  lemma FramesFirst(k: nat, spsPps: seq<Byte>, spsPpsLengths: seq<nat>, aud: bool, copy: bool,
                    payload: seq<Byte>, after: seq<Byte>)
    requires 1 <= k <= 4 && |payload| < Pow2(8 * k)
    ensures var n := |payload|;
            var before := copy && !aud;
            var behind := copy && aud;
            Frames(k, spsPps, spsPpsLengths, aud, ToBigEndian(n, k) + payload + after, copy)
              == PrependFraming((if before then spsPps else []) + (START_CODE + payload) + (if behind then spsPps else []),
                                (if before then spsPpsLengths else []) + [4 + n] + (if behind then spsPpsLengths else []),
                                Frames(k, spsPps, spsPpsLengths, aud, after, false))
  {
    var data := ToBigEndian(|payload|, k) + payload + after;
    ReadNaluLengthOfPrefixed(k, |payload|, payload + after);
    assert data == ToBigEndian(|payload|, k) + (payload + after);
    assert data[k..k + |payload|] == payload;
    assert data[k + |payload|..] == after;
  }

  /** A sample encoded with k-byte lengths frames back to its units, with a start code each. */
  lemma {:induction false} FramesRoundTrip(k: nat, spsPps: seq<Byte>, spsPpsLengths: seq<nat>, aud: bool, units: seq<seq<Byte>>)
    requires 1 <= k <= 4 && UnitsFit(k, units)
    ensures Frames(k, spsPps, spsPpsLengths, aud, EncodeUnits(k, units), false)
              == Ok(Framing(FrameUnits(units), UnitLengths(units), false))
  {
    if units != [] {
      var u, tail := units[0], units[1..];
      assert UnitsFit(k, tail) by {
        forall i | 0 <= i < |tail| ensures |tail[i]| < Pow2(8 * k) {
          assert tail[i] == units[i + 1];
        }
      }
      assert EncodeUnits(k, units) == ToBigEndian(|u|, k) + u + EncodeUnits(k, tail);
      FramesFirst(k, spsPps, spsPpsLengths, aud, false, u, EncodeUnits(k, tail));
      FramesRoundTrip(k, spsPps, spsPpsLengths, aud, tail);
      assert [] + (START_CODE + u) + [] == START_CODE + u;
      assert [] + [4 + |u|] + [] == [4 + |u|];
    }
  }

  /** One unit of the framing, with the parameter sets around it when they are copied here. */
  lemma FramesStep(k: nat, spsPps: seq<Byte>, spsPpsLengths: seq<nat>, aud: bool, data: seq<Byte>, copy: bool, n: nat)
    requires data != [] && ReadNaluLength(k, data) == Ok(n) && k + n <= |data|
    ensures var before := copy && !aud;
            var behind := copy && aud;
            Frames(k, spsPps, spsPpsLengths, aud, data, copy)
              == PrependFraming((if before then spsPps else []) + (START_CODE + data[k..k + n]) + (if behind then spsPps else []),
                                (if before then spsPpsLengths else []) + [4 + n] + (if behind then spsPpsLengths else []),
                                Frames(k, spsPps, spsPpsLengths, aud, data[k + n..], false))
  {
  }

  /**
   * The recorded lengths describe the framed bytes exactly, given that the
   * parameter-set lengths describe the parameter-set bytes.
   */
  lemma {:induction false} FramesLengthsDescribeBytes(k: nat, spsPps: seq<Byte>, spsPpsLengths: seq<nat>, aud: bool, data: seq<Byte>, copy: bool)
    requires Sum(spsPpsLengths) == |spsPps|
    requires Frames(k, spsPps, spsPpsLengths, aud, data, copy).Ok?
    ensures Sum(Frames(k, spsPps, spsPpsLengths, aud, data, copy).value.lengths) == |Frames(k, spsPps, spsPpsLengths, aud, data, copy).value.bytes|
    decreases |data|
  {
    if data != [] {
      var n := ReadNaluLength(k, data).value;
      var rest := Frames(k, spsPps, spsPpsLengths, aud, data[k + n..], false);
      FramesLengthsDescribeBytes(k, spsPps, spsPpsLengths, aud, data[k + n..], false);
      var before := copy && !aud;
      var behind := copy && aud;
      var ins := if before then spsPps else [];
      var insL := if before then spsPpsLengths else [];
      var tl := if behind then spsPps else [];
      var tlL := if behind then spsPpsLengths else [];
      assert Sum([4 + n]) == 4 + n by {
        assert [4 + n][1..] == [];
      }
      SumAppend(insL, [4 + n]);
      SumAppend(insL + [4 + n], tlL);
      SumAppend(insL + [4 + n] + tlL, rest.value.lengths);
    }
  }

  /**
   * Without the parameter sets, each unit of n payload bytes is read as k + n
   * bytes of the sample and written as 4 + n: every byte framed lies inside
   * the sample, which is consumed exactly.
   */
  lemma {:induction false} FramesConsumeSample(k: nat, spsPps: seq<Byte>, spsPpsLengths: seq<nat>, aud: bool, data: seq<Byte>)
    requires Frames(k, spsPps, spsPpsLengths, aud, data, false).Ok?
    ensures var o := Frames(k, spsPps, spsPpsLengths, aud, data, false).value;
            |o.bytes| + k * |o.lengths| == |data| + 4 * |o.lengths| && !o.copyPending
    decreases |data|
  {
    if data != [] {
      var n := ReadNaluLength(k, data).value;
      FramesConsumeSample(k, spsPps, spsPpsLengths, aud, data[k + n..]);
    }
  }

  /**
   * A key frame is framed as the same sample otherwise would be, with the
   * parameter sets in front of the first unit, or right behind it when the
   * sample begins with an AUD; an empty key frame gets none.
   */
  lemma FramesKeyFrame(k: nat, spsPps: seq<Byte>, spsPpsLengths: seq<nat>, aud: bool, data: seq<Byte>)
    ensures var key := Frames(k, spsPps, spsPpsLengths, aud, data, true);
            var plain := Frames(k, spsPps, spsPpsLengths, aud, data, false);
            && (key.Err? <==> plain.Err?)
            && (key.Err? ==> key.error == plain.error)
            && (data == [] ==> key == Ok(Framing([], [], true)))
            && (key.Ok? && data != [] && !aud ==>
                  key.value == Framing(spsPps + plain.value.bytes, spsPpsLengths + plain.value.lengths, false))
            && (key.Ok? && data != [] && aud ==>
                  |plain.value.lengths| > 0 && plain.value.lengths[0] <= |plain.value.bytes| &&
                  key.value == Framing(plain.value.bytes[..plain.value.lengths[0]] + spsPps + plain.value.bytes[plain.value.lengths[0]..],
                                       [plain.value.lengths[0]] + spsPpsLengths + plain.value.lengths[1..], false))
  {
    if data != [] && ReadNaluLength(k, data).Ok? && k + ReadNaluLength(k, data).value <= |data| {
      var n := ReadNaluLength(k, data).value;
      FramesStep(k, spsPps, spsPpsLengths, aud, data, true, n);
      FramesStep(k, spsPps, spsPpsLengths, aud, data, false, n);
      var rest := Frames(k, spsPps, spsPpsLengths, aud, data[k + n..], false);
      if rest.Ok? {
        var frame := START_CODE + data[k..k + n];
        FramingWithSets(frame, n, spsPps, spsPpsLengths, aud, rest.value);
      }
    }
  }

  /** The arithmetic of FramesKeyFrame for one unit in front of the framed rest. */
  lemma FramingWithSets(frame: seq<Byte>, n: nat, spsPps: seq<Byte>, spsPpsLengths: seq<nat>, aud: bool, o: Framing)
    requires |frame| == 4 + n
    ensures var plain := Framing([] + frame + [] + o.bytes, [] + [4 + n] + [] + o.lengths, o.copyPending);
            && (!aud ==> Framing(spsPps + frame + [] + o.bytes, spsPpsLengths + [4 + n] + [] + o.lengths, o.copyPending)
                           == Framing(spsPps + plain.bytes, spsPpsLengths + plain.lengths, o.copyPending))
            && (aud ==> |plain.lengths| > 0 && plain.lengths[0] == 4 + n <= |plain.bytes| &&
                        Framing([] + frame + spsPps + o.bytes, [] + [4 + n] + spsPpsLengths + o.lengths, o.copyPending)
                          == Framing(plain.bytes[..4 + n] + spsPps + plain.bytes[4 + n..],
                                     [4 + n] + spsPpsLengths + plain.lengths[1..], o.copyPending))
  {
    var bytes := [] + frame + [] + o.bytes;
    var lengths := [] + [4 + n] + [] + o.lengths;
    assert bytes == frame + o.bytes;
    assert lengths == [4 + n] + o.lengths;
    assert bytes[..4 + n] == frame && bytes[4 + n..] == o.bytes;
    assert lengths[1..] == o.lengths;
  }

  /** The framed output as the in-place loop leaves it: behind the part of the packet already rewritten. */
  function AsStamped(pre: seq<Byte>, r: Result<Framing>): Result<Stamped>
  {
    match r
    case Err(e) => Err(e)
    case Ok(o) => Ok(Stamped(pre + o.bytes, o.lengths))
  }

  /**
   * With 4-byte length prefixes, rewriting the packet in place gives exactly
   * the bytes and lengths that writing a new buffer would: the packet part
   * already rewritten, followed by the framing of the rest.
   */
  lemma {:induction false} InPlaceMatchesBuffer(spsPps: seq<Byte>, spsPpsLengths: seq<nat>, aud: bool, pre: seq<Byte>, data: seq<Byte>)
    ensures StampFrom(4, pre + data, |pre|) == AsStamped(pre, Frames(4, spsPps, spsPpsLengths, aud, data, false))
    decreases |data|
  {
    var cur := pre + data;
    assert cur[|pre|..] == data;
    if data == [] {
      assert cur == pre + [];
    } else if ReadNaluLength(4, data).Ok? && 4 + ReadNaluLength(4, data).value <= |data| {
      var n := ReadNaluLength(4, data).value;
      var pre' := pre + (START_CODE + data[4..4 + n]);
      var data' := data[4 + n..];
      StampSplits(pre, data, n, pre', data');
      StampFromStep(4, cur, |pre|, n, pre' + data', |pre'|);
      FramesStepPlain(4, spsPps, spsPpsLengths, aud, data, n);
      InPlaceMatchesBuffer(spsPps, spsPpsLengths, aud, pre', data');
      AsStampedShift(pre, START_CODE + data[4..4 + n], n, Frames(4, spsPps, spsPpsLengths, aud, data', false), pre');
    }
  }

  /** One unit of the framing of a sample whose parameter sets are not copied. */
  lemma FramesStepPlain(k: nat, spsPps: seq<Byte>, spsPpsLengths: seq<nat>, aud: bool, data: seq<Byte>, n: nat)
    requires data != [] && ReadNaluLength(k, data) == Ok(n) && k + n <= |data|
    ensures Frames(k, spsPps, spsPpsLengths, aud, data, false)
              == PrependFraming(START_CODE + data[k..k + n], [4 + n], Frames(k, spsPps, spsPpsLengths, aud, data[k + n..], false))
  {
    FramesStep(k, spsPps, spsPpsLengths, aud, data, false, n);
    assert [] + (START_CODE + data[k..k + n]) + [] == START_CODE + data[k..k + n];
    assert [] + [4 + n] + [] == [4 + n];
  }

  /** A framed unit moved from the buffer output onto the rewritten part of the packet. */
  lemma AsStampedShift(pre: seq<Byte>, frame: seq<Byte>, n: nat, rest: Result<Framing>, pre': seq<Byte>)
    requires pre' == pre + frame
    ensures AsStamped(pre, PrependFraming(frame, [4 + n], rest)) == PrependLengths([4 + n], AsStamped(pre', rest))
  {
    if rest.Ok? {
      assert pre + (frame + rest.value.bytes) == pre' + rest.value.bytes;
    }
  }

  /** One unit of the in-place loop. */
  lemma StampFromStep(k: nat, cur: seq<Byte>, pos: nat, n: nat, cur': seq<Byte>, pos': nat)
    requires pos < |cur| && ReadNaluLength(k, cur[pos..]) == Ok(n) && pos + k + n <= |cur|
    requires cur' == Stamp(cur, pos) && pos' == pos + k + n
    ensures StampFrom(k, cur, pos) == PrependLengths([4 + n], StampFrom(k, cur', pos'))
  {
  }

  /** Stamping the unit at the front of data moves it, framed, onto the rewritten part. */
  lemma StampSplits(pre: seq<Byte>, data: seq<Byte>, n: nat, pre': seq<Byte>, data': seq<Byte>)
    requires 4 + n <= |data| && pre' == pre + (START_CODE + data[4..4 + n]) && data' == data[4 + n..]
    ensures Stamp(pre + data, |pre|) == pre' + data' && |pre'| == |pre| + 4 + n
  {
    var cur := pre + data;
    StampOverwrites(cur, |pre|);
    assert cur[..|pre|] == pre;
    assert cur[|pre| + 4..] == data[4..];
    assert data[4..] == data[4..4 + n] + data';
  }

  /** Choosing in place never changes the sample produced: it is what a new buffer would hold. */
  lemma InPlaceIsTransparent(c: AvcConfig, pkt: seq<Byte>, isKeyFrame: bool)
    ensures TransformSpec(c, pkt, isKeyFrame) == TransformWith(c, pkt, isKeyFrame, true)
  {
    if !WritesBuffer(isKeyFrame, c.naluLengthSize) {
      InPlaceMatchesBuffer(c.spsPps, c.spsPpsLengths, FirstIsAud(4, pkt), [], pkt);
      assert [] + pkt == pkt;
      var r := Frames(4, c.spsPps, c.spsPpsLengths, FirstIsAud(4, pkt), pkt, false);
      if r.Ok? {
        assert [] + r.value.bytes == r.value.bytes;
      }
    }
  }

  /**
   * A sample laid out with the configured length size comes out as its
   * units behind start codes, with one recorded length per unit.
   */
  lemma TransformRoundTrip(c: AvcConfig, units: seq<seq<Byte>>)
    requires 1 <= c.naluLengthSize <= 4 && UnitsFit(c.naluLengthSize, units)
    ensures TransformSpec(c, EncodeUnits(c.naluLengthSize, units), false)
              == Ok(Nalu.TransformedSample(FrameUnits(units), UnitLengths(units)))
  {
    var pkt := EncodeUnits(c.naluLengthSize, units);
    InPlaceIsTransparent(c, pkt, false);
    FramesRoundTrip(c.naluLengthSize, c.spsPps, c.spsPpsLengths, FirstIsAud(c.naluLengthSize, pkt), units);
  }

  /**
   * A key frame is the sample as it would otherwise be transformed, with the
   * parameter sets and their lengths in front, or behind the first unit when
   * that is an AUD; an empty key frame gets no parameter sets.
   */
  lemma TransformKeyFrame(c: AvcConfig, pkt: seq<Byte>)
    ensures var key := TransformSpec(c, pkt, true);
            var plain := TransformSpec(c, pkt, false);
            && (key.Err? <==> plain.Err?)
            && (key.Err? ==> key.error == plain.error)
            && (pkt == [] ==> key == Ok(Nalu.TransformedSample([], [])))
            && (key.Ok? && pkt != [] && !FirstIsAud(c.naluLengthSize, pkt) ==>
                  key.value == Nalu.TransformedSample(c.spsPps + plain.value.buffer, c.spsPpsLengths + plain.value.naluLengths))
            && (key.Ok? && pkt != [] && FirstIsAud(c.naluLengthSize, pkt) ==>
                  var m := plain.value.naluLengths[0];
                  |plain.value.naluLengths| > 0 && m <= |plain.value.buffer| &&
                  key.value == Nalu.TransformedSample(plain.value.buffer[..m] + c.spsPps + plain.value.buffer[m..],
                                                      [m] + c.spsPpsLengths + plain.value.naluLengths[1..]))
  {
    InPlaceIsTransparent(c, pkt, false);
    FramesKeyFrame(c.naluLengthSize, c.spsPps, c.spsPpsLengths, FirstIsAud(c.naluLengthSize, pkt), pkt);
  }

  /**
   * The recorded lengths describe the transformed sample exactly when those
   * of the parameter sets describe them, as they do for a parsed record.
   */
  lemma TransformLengthsDescribeBuffer(c: AvcConfig, pkt: seq<Byte>, isKeyFrame: bool)
    requires Sum(c.spsPpsLengths) == |c.spsPps|
    requires TransformSpec(c, pkt, isKeyFrame).Ok?
    ensures Sum(TransformSpec(c, pkt, isKeyFrame).value.naluLengths) == |TransformSpec(c, pkt, isKeyFrame).value.buffer|
  {
    InPlaceIsTransparent(c, pkt, isKeyFrame);
    FramesLengthsDescribeBytes(c.naluLengthSize, c.spsPps, c.spsPpsLengths, FirstIsAud(c.naluLengthSize, pkt), pkt, isKeyFrame);
  }

  /**
   * As written, a 2-byte-prefixed sample that is not a key frame is
   * rewritten in place: the start code overwrites its prefix and the first
   * two payload bytes, and only the last payload byte survives. Written to
   * a new buffer, as intended, the payload is kept whole.
   */
  lemma InPlaceAsWrittenLosesPayload(c: AvcConfig)
    requires c.naluLengthSize == 2
    ensures TransformSpecAsWritten(c, [0, 3, 10, 11, 12], false) == Ok(Nalu.TransformedSample([0, 0, 0, 1, 12], [7]))
    ensures TransformSpec(c, [0, 3, 10, 11, 12], false) == Ok(Nalu.TransformedSample([0, 0, 0, 1, 10, 11, 12], [7]))
  {
    var pkt: seq<Byte> := [0, 3, 10, 11, 12];
    assert pkt[0..] == pkt;
    assert ReadNaluLength(2, pkt) == Ok(3);
    assert START_CODE[..4] == START_CODE;
    var stamped: seq<Byte> := [0, 0, 0, 1, 12];
    assert Stamp(pkt, 0) == stamped;
    StampFromStep(2, pkt, 0, 3, stamped, 5);
    assert StampFrom(2, stamped, 5) == Ok(Stamped(stamped, []));
    assert [7] + [] == [7];
    assert pkt[5..] == [];
    assert pkt[2..5] == [10, 11, 12];
    FramesStepPlain(2, c.spsPps, c.spsPpsLengths, FirstIsAud(2, pkt), pkt, 3);
    assert Frames(2, c.spsPps, c.spsPpsLengths, FirstIsAud(2, pkt), [], false) == Ok(Framing([], [], false));
    assert START_CODE + [10, 11, 12] + [] == [0, 0, 0, 1, 10, 11, 12];
  }

  /**
   * The bound check on each unit as written: the sum is taken in uint32
   * arithmetic, so it wraps.
   */
  predicate UnitOverrunsAsWritten(pos: nat, k: nat, n: nat, size: nat)
  {
    (pos + k + n) % UINT32_MODULUS > size
  }

  /**
   * As written, a 4-byte length of 0xFFFFFFFF in a 4-byte sample passes the
   * bound check (4 + 0xFFFFFFFF wraps to 3), and the copy that follows reads
   * far past the packet. Checked without wrapping, as the model does, the
   * sample is rejected.
   */
  lemma UnitOverrunCheckWraps(c: AvcConfig, isKeyFrame: bool)
    requires c.naluLengthSize == 4
    ensures ReadNaluLength(4, [0xFF, 0xFF, 0xFF, 0xFF]) == Ok(UINT32_MAX)
    ensures !UnitOverrunsAsWritten(0, 4, UINT32_MAX, 4)
    ensures TransformSpec(c, [0xFF, 0xFF, 0xFF, 0xFF], isKeyFrame) == Err(MfEInvalidFileFormat)
  {
    var pkt: seq<Byte> := [0xFF, 0xFF, 0xFF, 0xFF];
    assert ReadNaluLength(4, pkt) == Ok(UINT32_MAX);
    assert pkt[0..] == pkt;
  }

  /**
   * One unit of TransformSample's loop on a new buffer: the outcome of the
   * whole loop, seen as the output so far in front of the framing of the
   * rest, is the same with the unit at pos (and the parameter sets copied
   * around it) moved into the output.
   */
  lemma FramingAdvance(k: nat, spsPps: seq<Byte>, spsPpsLengths: seq<nat>, aud: bool, pkt: seq<Byte>,
                       pos: nat, copy: bool, n: nat, goal: Result<Framing>, buf: seq<Byte>, lengths: seq<nat>,
                       buf': seq<Byte>, lengths': seq<nat>, pos': nat)
    requires pos < |pkt| && ReadNaluLength(k, pkt[pos..]) == Ok(n) && pos' == pos + k + n <= |pkt|
    requires goal == PrependFraming(buf, lengths, Frames(k, spsPps, spsPpsLengths, aud, pkt[pos..], copy))
    requires buf' == (if copy && !aud then buf + spsPps else buf) + START_CODE + pkt[pos + k..pos + k + n] + (if copy && aud then spsPps else [])
    requires lengths' == (if copy && !aud then lengths + spsPpsLengths else lengths) + [4 + n] + (if copy && aud then spsPpsLengths else [])
    ensures goal == PrependFraming(buf', lengths', Frames(k, spsPps, spsPpsLengths, aud, pkt[pos'..], false))
  {
    FramesStepAt(k, spsPps, spsPpsLengths, aud, pkt, pos, copy, n, pos');
    var ins := if copy && !aud then spsPps else [];
    var insL := if copy && !aud then spsPpsLengths else [];
    var tl := if copy && aud then spsPps else [];
    var tlL := if copy && aud then spsPpsLengths else [];
    var frame := START_CODE + pkt[pos + k..pos + k + n];
    assert buf' == buf + (ins + frame + tl);
    assert lengths' == lengths + (insL + [4 + n] + tlL);
    PrependFramingTwice(buf, lengths, ins + frame + tl, insL + [4 + n] + tlL, Frames(k, spsPps, spsPpsLengths, aud, pkt[pos'..], false));
  }

  /** One unit of the framing, at offset pos of the packet. */
  lemma FramesStepAt(k: nat, spsPps: seq<Byte>, spsPpsLengths: seq<nat>, aud: bool, pkt: seq<Byte>,
                     pos: nat, copy: bool, n: nat, pos': nat)
    requires pos < |pkt| && ReadNaluLength(k, pkt[pos..]) == Ok(n) && pos' == pos + k + n <= |pkt|
    ensures var before := copy && !aud;
            var behind := copy && aud;
            Frames(k, spsPps, spsPpsLengths, aud, pkt[pos..], copy)
              == PrependFraming((if before then spsPps else []) + (START_CODE + pkt[pos + k..pos + k + n]) + (if behind then spsPps else []),
                                (if before then spsPpsLengths else []) + [4 + n] + (if behind then spsPpsLengths else []),
                                Frames(k, spsPps, spsPpsLengths, aud, pkt[pos'..], false))
  {
    var data := pkt[pos..];
    assert data[k..k + n] == pkt[pos + k..pos + k + n];
    assert data[k + n..] == pkt[pos'..];
    FramesStep(k, spsPps, spsPpsLengths, aud, data, copy, n);
  }

  lemma PrependFramingTwice(a: seq<Byte>, b: seq<nat>, c: seq<Byte>, d: seq<nat>, r: Result<Framing>)
    ensures PrependFraming(a, b, PrependFraming(c, d, r)) == PrependFraming(a + c, b + d, r)
  {
    if r.Ok? {
      assert a + (c + r.value.bytes) == (a + c) + r.value.bytes;
      assert b + (d + r.value.lengths) == (b + d) + r.value.lengths;
    }
  }

  /** One unit of TransformSample's loop in place: its prefix is stamped and its length recorded. */
  lemma StampingAdvance(k: nat, cur: seq<Byte>, pos: nat, n: nat, goal: Result<Stamped>, lengths: seq<nat>,
                        cur': seq<Byte>, lengths': seq<nat>, pos': nat)
    requires pos < |cur| && ReadNaluLength(k, cur[pos..]) == Ok(n) && pos' == pos + k + n <= |cur|
    requires goal == PrependLengths(lengths, StampFrom(k, cur, pos))
    requires cur' == Stamp(cur, pos) && lengths' == lengths + [4 + n]
    ensures goal == PrependLengths(lengths', StampFrom(k, cur', pos'))
  {
    StampFromStep(k, cur, pos, n, cur', pos');
    PrependLengthsTwice(lengths, [4 + n], StampFrom(k, cur', pos'));
  }

  lemma PrependLengthsTwice(a: seq<nat>, b: seq<nat>, r: Result<Stamped>)
    ensures PrependLengths(a, PrependLengths(b, r)) == PrependLengths(a + b, r)
  {
    if r.Ok? {
      assert a + (b + r.value.lengths) == (a + b) + r.value.lengths;
    }
  }

  /** The provider of H.264 samples in the AVC layout: each sample is rewritten into start-code format. */
  class H264SampleProvider {
    const codecPrivate: AvcCodecPrivate

    constructor (codecPrivate: AvcCodecPrivate)
      ensures this.codecPrivate == codecPrivate
    {
      this.codecPrivate := codecPrivate;
    }

    /** The provider is created with the stream's extradata parsed as an AVC configuration record. */
    static method Create(extradata: Option<seq<Byte>>) returns (r: Result<H264SampleProvider>)
      ensures r.Err? <==> ParseAvcConfig(extradata).Err?
      ensures r.Err? ==> r.error == ParseAvcConfig(extradata).error
      ensures r.Ok? ==> fresh(r.value) && fresh(r.value.codecPrivate) && r.value.codecPrivate.Config() == ParseAvcConfig(extradata).value
    {
      var cp := AvcCodecPrivate.Create(extradata);
      if cp.Err? {
        return Err(cp.error);
      }
      var provider := new H264SampleProvider(cp.value);
      return Ok(provider);
    }

    /**
     * The body of TransformSample's loop for the unit of n bytes behind the
     * k-byte prefix at pos: the parameter sets are copied in front of it
     * unless the sample begins with an AUD, then the unit is written to the
     * buffer behind a start code or, in place, its prefix is overwritten by
     * a start code; parameter sets still to be copied go behind it.
     */
    method TransformNalu(packet: array<Byte>, pos: nat, k: nat, n: nat, write: bool, copy: bool,
                         spsPps: seq<Byte>, spsPpsLengths: seq<nat>, buf: seq<Byte>, lengths: seq<nat>,
                         ghost pkt: seq<Byte>, ghost aud: bool)
      returns (copy': bool, buf': seq<Byte>, lengths': seq<nat>)
      requires pos + k + n <= packet.Length
      requires write ==> packet[..] == pkt
      requires !write ==> k == 4 && !copy
      requires copy ==> aud == FirstIsAud(k, pkt)
      modifies packet
      ensures !copy'
      ensures write ==> packet[..] == pkt
      ensures write ==> buf' == (if copy && !aud then buf + spsPps else buf) + START_CODE + pkt[pos + k..pos + k + n]
                                  + (if copy && aud then spsPps else [])
      ensures lengths' == (if copy && !aud then lengths + spsPpsLengths else lengths) + [4 + n]
                          + (if copy && aud then spsPpsLengths else [])
      ensures !write ==> packet[..] == Stamp(old(packet[..]), pos)
    {
      copy', buf', lengths' := copy, buf, lengths;
      if copy' {
        // The AUD, when the sample has one, is its first unit
        if !(k < packet.Length && packet[k] == Nalu.NALU_TYPE_AUD) {
          buf' := buf' + spsPps;
          lengths' := lengths' + spsPpsLengths;
          copy' := false;
        }
      }
      if write {
        buf' := buf' + START_CODE + packet[pos + k..pos + k + n];
      } else {
        StampOverwrites(packet[..], pos);
        Nalu.StampStartCode(packet, pos);
      }
      lengths' := lengths' + [4 + n];
      if copy' {
        buf' := buf' + spsPps;
        lengths' := lengths' + spsPpsLengths;
        copy' := false;
      } else {
        assert buf' == buf' + [] && lengths' == lengths' + [];
      }
    }

    /**
     * Rewrites a sample into start-code format, recording each unit's
     * length: in place when its length prefixes are 4 bytes long and it is
     * not a key frame, otherwise into a new buffer, with the parameter sets
     * copied in with the first unit of a key frame.
     */
    method TransformSample(packet: array<Byte>, isKeyFrame: bool) returns (r: Result<Nalu.TransformedSample>)
      modifies packet
      ensures r == TransformSpec(codecPrivate.Config(), old(packet[..]), isKeyFrame)
      ensures WritesBuffer(isKeyFrame, codecPrivate.naluLengthSize) ==> packet[..] == old(packet[..])
      ensures r.Ok? && !WritesBuffer(isKeyFrame, codecPrivate.naluLengthSize) ==> packet[..] == r.value.buffer
    {
      var k := codecPrivate.naluLengthSize;
      var spsPps, spsPpsLengths := codecPrivate.spsPpsData, codecPrivate.spsPpsNaluLengths;
      var write := isKeyFrame || k != 4;
      ghost var pkt := packet[..];
      ghost var aud := FirstIsAud(k, pkt);
      var buf: seq<Byte> := [];
      var lengths: seq<nat> := [];
      var copy := isKeyFrame;
      var pos: nat := 0;
      ghost var goalW := Frames(k, spsPps, spsPpsLengths, aud, pkt, copy);
      ghost var goalS := StampFrom(k, pkt, 0);
      assert pkt[0..] == pkt;
      PrependNothing(goalW, goalS);
      ghost var spec := TransformSpec(codecPrivate.Config(), pkt, isKeyFrame);
      assert spec == TransformWith(codecPrivate.Config(), pkt, isKeyFrame, write);
      while pos < packet.Length
        invariant pos <= packet.Length && (copy ==> pos == 0)
        invariant write ==> packet[..] == pkt && goalW == PrependFraming(buf, lengths, Frames(k, spsPps, spsPpsLengths, aud, pkt[pos..], copy))
        invariant !write ==> !copy && k == 4 && goalS == PrependLengths(lengths, StampFrom(k, packet[..], pos))
        decreases packet.Length - pos
      {
        var read := ReadNaluLength(k, packet[pos..]);
        if read.Err? || pos + k + read.value > packet.Length {
          ghost var e := if read.Err? then read.error else MfEInvalidFileFormat;
          if write {
            FramesStops(k, spsPps, spsPpsLengths, aud, pkt, pos, copy, buf, lengths, goalW, e);
          } else {
            StampFromStops(k, packet[..], pos, lengths, goalS, e);
          }
          if read.Err? {
            return Err(read.error);
          }
          return Err(MfEInvalidFileFormat);
        }
        var n := read.value;
        ghost var cur := packet[..];
        ghost var buf0 := buf;
        ghost var lengths0 := lengths;
        ghost var copy0 := copy;
        ghost var pos0 := pos;
        copy, buf, lengths := TransformNalu(packet, pos, k, n, write, copy, spsPps, spsPpsLengths, buf, lengths, pkt, aud);
        pos := pos + k + n;
        if write {
          FramingAdvance(k, spsPps, spsPpsLengths, aud, pkt, pos0, copy0, n, goalW, buf0, lengths0, buf, lengths, pos);
        } else {
          StampingAdvance(k, cur, pos0, n, goalS, lengths0, packet[..], lengths, pos);
        }
      }
      if write {
        FramesDone(k, spsPps, spsPpsLengths, aud, pkt, pos, copy, buf, lengths, goalW);
        return Ok(Nalu.TransformedSample(buf, lengths));
      }
      StampFromDone(k, packet[..], pos, lengths, goalS);
      return Ok(Nalu.TransformedSample(packet[..], lengths));
    }
  }

  /** A unit whose length cannot be read, or that runs past the packet, fails the sample. */
  lemma FramesStops(k: nat, spsPps: seq<Byte>, spsPpsLengths: seq<nat>, aud: bool, pkt: seq<Byte>, pos: nat, copy: bool,
                    buf: seq<Byte>, lengths: seq<nat>, goal: Result<Framing>, e: HResult)
    requires pos < |pkt| && goal == PrependFraming(buf, lengths, Frames(k, spsPps, spsPpsLengths, aud, pkt[pos..], copy))
    requires var read := ReadNaluLength(k, pkt[pos..]);
             (read.Err? && e == read.error) || (read.Ok? && pos + k + read.value > |pkt| && e == MfEInvalidFileFormat)
    ensures goal == Err(e)
  {
  }

  lemma StampFromStops(k: nat, cur: seq<Byte>, pos: nat, lengths: seq<nat>, goal: Result<Stamped>, e: HResult)
    requires pos < |cur| && goal == PrependLengths(lengths, StampFrom(k, cur, pos))
    requires var read := ReadNaluLength(k, cur[pos..]);
             (read.Err? && e == read.error) || (read.Ok? && pos + k + read.value > |cur| && e == MfEInvalidFileFormat)
    ensures goal == Err(e)
  {
  }

  /** At the end of the packet the output so far is the outcome. */
  lemma FramesDone(k: nat, spsPps: seq<Byte>, spsPpsLengths: seq<nat>, aud: bool, pkt: seq<Byte>, pos: nat, copy: bool,
                   buf: seq<Byte>, lengths: seq<nat>, goal: Result<Framing>)
    requires pos == |pkt| && goal == PrependFraming(buf, lengths, Frames(k, spsPps, spsPpsLengths, aud, pkt[pos..], copy))
    ensures goal == Ok(Framing(buf, lengths, copy))
  {
    assert pkt[pos..] == [];
    assert buf + [] == buf && lengths + [] == lengths;
  }

  lemma StampFromDone(k: nat, cur: seq<Byte>, pos: nat, lengths: seq<nat>, goal: Result<Stamped>)
    requires pos >= |cur| && goal == PrependLengths(lengths, StampFrom(k, cur, pos))
    ensures goal == Ok(Stamped(cur, lengths))
  {
    assert lengths + [] == lengths;
  }

  lemma PrependNothing(w: Result<Framing>, s: Result<Stamped>)
    ensures PrependFraming([], [], w) == w && PrependLengths([], s) == s
  {
    if w.Ok? {
      assert [] + w.value.bytes == w.value.bytes && [] + w.value.lengths == w.value.lengths;
    }
    if s.Ok? {
      assert [] + s.value.lengths == s.value.lengths;
    }
  }

  // ---------------------------------------------------------------------
  // AVCSequenceParameterSet

  /** What the provider reads from a sequence parameter set: profile_idc and constraint_set1_flag. */
  datatype SpsHeader = SpsHeader(profile: Byte, constraintSet1: bool)

  /**
   * The first bytes of a sequence parameter set: NAL header, profile_idc,
   * then the byte holding constraint_set0_flag .. constraint_set5_flag
   * (most significant bit first) and two reserved zero bits.
   */
  function ConstraintFlagsByte(flags: seq<bool>): (b: Byte)
    requires |flags| == 6
  {
    (if flags[0] then 0x80 else 0) + (if flags[1] then 0x40 else 0) + (if flags[2] then 0x20 else 0)
      + (if flags[3] then 0x10 else 0) + (if flags[4] then 0x08 else 0) + (if flags[5] then 0x04 else 0)
  }

  /** The sequence parameter set must be present and hold at least three bytes. */
  function ParseSpsHeader(data: Option<seq<Byte>>): (r: Result<SpsHeader>)
    ensures r.Ok? <==> data.Some? && |data.value| >= 3
    ensures r.Err? ==> r.error == MfEInvalidFileFormat
  {
    if data.None? || |data.value| < 3 then Err(MfEInvalidFileFormat)
    else Ok(SpsHeader(data.value[1], (data.value[2] / 0x40) % 2 == 1))
  }

  /** The header reads back profile_idc and constraint_set1_flag, whatever the other flags and bytes. */
  lemma SpsHeaderRoundTrip(nalHeader: Byte, profile: Byte, flags: seq<bool>, rest: seq<Byte>)
    requires |flags| == 6
    ensures ParseSpsHeader(Some([nalHeader, profile, ConstraintFlagsByte(flags)] + rest)) == Ok(SpsHeader(profile, flags[1]))
  {
    var b := ConstraintFlagsByte(flags);
    var low := (if flags[2] then 0x20 else 0) + (if flags[3] then 0x10 else 0) + (if flags[4] then 0x08 else 0) + (if flags[5] then 0x04 else 0);
    assert low < 0x40;
    assert b == (if flags[0] then 2 else 0) * 0x40 + (if flags[1] then 1 else 0) * 0x40 + low;
    assert b / 0x40 == (if flags[0] then 2 else 0) + (if flags[1] then 1 else 0);
  }
}
