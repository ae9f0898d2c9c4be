// HEVCSampleProvider: the HEVC flavour of the NAL-unit sample provider.
//
// The stream's extradata is either an HEVC decoder configuration record
// (hvcC, section 8.3.3.1 of ISO/IEC 14496-15), recognised by a first byte of
// 1, or an Annex B byte stream of parameter sets. From the hvcC record the
// provider takes the NAL unit length size and the VPS, SPS and PPS units of
// its parameter-set arrays, framed with start codes.

module Hevc {
  import opened Common
  import Nalu
  import H264

  /** MIN_SIZE: the fixed part of an hvcC record and its array count. */
  const HEVC_MIN_SIZE: nat := 23

  const NALU_TYPE_HEVC_VPS: nat := 0x20
  const NALU_TYPE_HEVC_SPS: nat := 0x21
  const NALU_TYPE_HEVC_PPS: nat := 0x22

  /** Only video, sequence and picture parameter sets are copied out of the record. */
  predicate IsParameterSetType(naluType: nat)
  {
    naluType == NALU_TYPE_HEVC_VPS || naluType == NALU_TYPE_HEVC_SPS || naluType == NALU_TYPE_HEVC_PPS
  }

  /**
   * GetSpsPpsData's nested loops over the rest of the record, with `arrays`
   * arrays still to read after the `nalus` units left in the current one
   * (whose units are copied when copy holds). An array header is one byte
   * whose low 6 bits give the NAL unit type and a 2-byte big-endian unit
   * count; the header is refused unless at least one byte follows it. Each
   * unit is a 2-byte length and its payload, copied as a start code and the
   * payload with length 4 + payload.
   */
  function HvcWalk(arrays: nat, nalus: nat, copy: bool, data: seq<Byte>): Result<H264.ParsedSets>
    decreases arrays, nalus
  {
    if nalus > 0 then
      match Nalu.GetAvcNaluLength(data, 2)
      case Err(e) => Err(e)
      case Ok(n) =>
        H264.PrependSets(if copy then START_CODE + data[2..2 + n] else [], if copy then [4 + n] else [], 2 + n,
                         HvcWalk(arrays, nalus - 1, copy, data[2 + n..]))
    else if arrays == 0 then Ok(H264.ParsedSets([], [], 0))
    else if 3 >= |data| then Err(MfEInvalidFormat)
    else
      H264.PrependSets([], [], 3, HvcWalk(arrays - 1, data[1] as nat * 0x100 + data[2], IsParameterSetType(data[0] % 0x40), data[3..]))
  }

  /** HEVCConfigParser's checks, then the parameter sets of all arrays. */
  function ParseHvcConfig(data: seq<Byte>): Result<(seq<Byte>, seq<nat>)>
  {
    if |data| < HEVC_MIN_SIZE || data[0] != 1 then Err(MfEInvalidFileFormat)
    else match HvcWalk(data[22], 0, false, data[23..])
      case Err(e) => Err(e)
      case Ok(s) => Ok((s.bytes, s.lengths))
  }

  /**
   * The provider's bitstream format after construction: without extradata
   * it stays in Annex B mode with no parameter sets; extradata beginning with
   * 1 is an hvcC record; any other extradata is an Annex B stream of
   * parameter sets, kept as it is with the lengths of its units.
   */
  function HevcFormatWith(extradata: Option<seq<Byte>>, lengthSize: Byte -> nat): Result<Nalu.NaluFormat>
  {
    if extradata.None? || |extradata.value| == 0 then Ok(Nalu.NaluFormat(true, 0, [], []))
    else
      var d := extradata.value;
      if d[0] == 1 then
        match ParseHvcConfig(d)
        case Err(e) => Err(e)
        case Ok(sets) => Ok(Nalu.NaluFormat(false, lengthSize(d[21]), sets.0, sets.1))
      else if !StartsWithStartCode(d) then Err(MfEInvalidFileFormat)
      else match Nalu.AnnexBNaluLengths(d, 0)
        case Err(e) => Err(e)
        case Ok(lengths) => Ok(Nalu.NaluFormat(true, 0, d, lengths))
  }

  /** The format with the length size read as the record states it. */
  function HevcFormat(extradata: Option<seq<Byte>>): Result<Nalu.NaluFormat>
  {
    HevcFormatWith(extradata, H264.NaluLengthSizeField)
  }

  /** The format as written: GetNaluLengthSize evaluates `data[21] & (0x03 + 1)`. */
  function HevcFormatAsWritten(extradata: Option<seq<Byte>>): Result<Nalu.NaluFormat>
  {
    HevcFormatWith(extradata, H264.NaluLengthSizeAsWritten)
  }

  // ---------------------------------------------------------------------
  // Properties of the record walk

  /** One parameter-set array of an hvcC record: its header byte and its units. */
  datatype HvcArray = HvcArray(header: Byte, nalus: seq<H264.ParameterSet>)

  /** Arrays small enough for the 2-byte unit count, each holding at least one unit. */
  predicate ArraysFit(arrays: seq<HvcArray>)
  {
    forall i :: 0 <= i < |arrays| ==> 0 < |arrays[i].nalus| < 0x1_0000
  }

  /** One array as the record lays it out: header byte, 2-byte unit count, the units behind their lengths. */
  function EncodeArray(a: HvcArray): seq<Byte>
    requires 0 < |a.nalus| < 0x1_0000
  {
    [a.header] + H264.Uint16(|a.nalus|) + H264.EncodeSets(a.nalus)
  }

  /** The arrays as the record lays them out. */
  function EncodeArrays(arrays: seq<HvcArray>): seq<Byte>
    requires ArraysFit(arrays)
  {
    if arrays == [] then []
    else
      assert 0 < |arrays[0].nalus| < 0x1_0000;
      EncodeArray(arrays[0]) + EncodeArrays(arrays[1..])
  }

  /** The units copied out of one array: all of them for a VPS, SPS or PPS array, none otherwise. */
  function CopiedOf(a: HvcArray): seq<seq<Byte>>
  {
    if IsParameterSetType(a.header % 0x40) then a.nalus else []
  }

  /** The units copied out of the arrays, in order. */
  function CopiedUnits(arrays: seq<HvcArray>): seq<seq<Byte>>
  {
    if arrays == [] then [] else CopiedOf(arrays[0]) + CopiedUnits(arrays[1..])
  }

  /** The record's 2-byte unit length reads back through GetAVCNaluLength. */
  lemma NaluLengthOfUint16(payload: H264.ParameterSet, after: seq<Byte>)
    ensures Nalu.GetAvcNaluLength(H264.Uint16(|payload|) + payload + after, 2) == Ok(|payload|)
  {
    var prefix := H264.Uint16(|payload|);
    H264.ReadNaluLengthIsBigEndian(2, prefix);
    assert prefix[..2] == prefix;
    Nalu.AvcNaluLengthOfPrefix(prefix, payload, after);
  }

  /** The units of one array are read one after the other, each copied when the array's type is copied. */
  lemma {:induction false} WalkUnits(arrays: nat, copy: bool, nalus: seq<H264.ParameterSet>, after: seq<Byte>)
    ensures HvcWalk(arrays, |nalus|, copy, H264.EncodeSets(nalus) + after)
              == H264.PrependSets(if copy then H264.FrameUnits(nalus) else [], if copy then H264.UnitLengths(nalus) else [],
                                  |H264.EncodeSets(nalus)|, HvcWalk(arrays, 0, copy, after))
  {
    if nalus == [] {
      var r := HvcWalk(arrays, 0, copy, after);
      assert H264.EncodeSets(nalus) + after == after;
      if r.Ok? {
        assert [] + r.value.bytes == r.value.bytes && [] + r.value.lengths == r.value.lengths;
      }
    } else {
      var s, tail := nalus[0], nalus[1..];
      var data := H264.EncodeSets(nalus) + after;
      var rest := H264.EncodeSets(tail) + after;
      assert data == H264.Uint16(|s|) + s + rest;
      NaluLengthOfUint16(s, rest);
      assert data[2..2 + |s|] == s;
      assert data[2 + |s|..] == rest;
      WalkUnits(arrays, copy, tail, after);
      WalkUnitsShift(copy, s, tail, |H264.EncodeSets(tail)|, HvcWalk(arrays, 0, copy, after));
    }
  }

  /** The bookkeeping of WalkUnits: one framed unit in front of the framed rest of the array. */
  lemma WalkUnitsShift(copy: bool, s: H264.ParameterSet, tail: seq<H264.ParameterSet>, tailEnd: nat, r: Result<H264.ParsedSets>)
    ensures var nalus := [s] + tail;
            H264.PrependSets(if copy then START_CODE + s else [], if copy then [4 + |s|] else [], 2 + |s|,
                             H264.PrependSets(if copy then H264.FrameUnits(tail) else [], if copy then H264.UnitLengths(tail) else [], tailEnd, r))
              == H264.PrependSets(if copy then H264.FrameUnits(nalus) else [], if copy then H264.UnitLengths(nalus) else [], 2 + |s| + tailEnd, r)
  {
    var nalus := [s] + tail;
    assert nalus[0] == s && nalus[1..] == tail;
    if r.Ok? {
      var o := r.value;
      if copy {
        assert START_CODE + s + (H264.FrameUnits(tail) + o.bytes) == H264.FrameUnits(nalus) + o.bytes;
        assert [4 + |s|] + (H264.UnitLengths(tail) + o.lengths) == H264.UnitLengths(nalus) + o.lengths;
      } else {
        assert [] + ([] + o.bytes) == [] + o.bytes;
        assert [] + ([] + o.lengths) == [] + o.lengths;
      }
    }
  }

  /** Reading an array header: its type decides copying and its count the units to read. */
  lemma WalkHeader(arrays: nat, arrays': nat, header: Byte, count: seq<Byte>, nalus: nat, body: seq<Byte>, data: seq<Byte>)
    requires arrays > 0 && arrays' == arrays - 1 && nalus < 0x1_0000 && count == H264.Uint16(nalus) && |body| > 0
    requires data == [header] + count + body
    ensures HvcWalk(arrays, 0, false, data)
              == H264.PrependSets([], [], 3, HvcWalk(arrays', nalus, IsParameterSetType(header % 0x40), body))
  {
    assert data[0] == header && data[1] == count[0] && data[2] == count[1];
    assert data[3..] == body;
  }

  /** Between arrays, whether units were being copied no longer matters. */
  lemma WalkCopyIrrelevant(arrays: nat, copy: bool, data: seq<Byte>)
    ensures HvcWalk(arrays, 0, copy, data) == HvcWalk(arrays, 0, false, data)
  {
  }

  /** One array is read whole: its units are copied when its type is VPS, SPS or PPS. */
  lemma WalkArray(arrays: nat, arrays': nat, a: HvcArray, after: seq<Byte>, data: seq<Byte>)
    requires arrays > 0 && arrays' == arrays - 1 && 0 < |a.nalus| < 0x1_0000 && data == EncodeArray(a) + after
    ensures HvcWalk(arrays, 0, false, data)
              == H264.PrependSets(H264.FrameUnits(CopiedOf(a)), H264.UnitLengths(CopiedOf(a)), |EncodeArray(a)|,
                                  HvcWalk(arrays', 0, false, after))
  {
    var count := H264.Uint16(|a.nalus|);
    var units := H264.EncodeSets(a.nalus);
    var copy := IsParameterSetType(a.header % 0x40);
    assert data == [a.header] + count + (units + after);
    assert |units| >= 2 by {
      assert units == H264.Uint16(|a.nalus[0]|) + a.nalus[0] + H264.EncodeSets(a.nalus[1..]);
    }
    WalkHeader(arrays, arrays', a.header, count, |a.nalus|, units + after, data);
    WalkUnits(arrays', copy, a.nalus, after);
    WalkCopyIrrelevant(arrays', copy, after);
    HeaderShift(copy, a, |units|, HvcWalk(arrays', 0, false, after));
  }

  /** The bookkeeping of WalkArray: the header's three bytes in front of the array's units. */
  lemma HeaderShift(copy: bool, a: HvcArray, unitsEnd: nat, r: Result<H264.ParsedSets>)
    requires copy == IsParameterSetType(a.header % 0x40)
    ensures H264.PrependSets([], [], 3,
              H264.PrependSets(if copy then H264.FrameUnits(a.nalus) else [], if copy then H264.UnitLengths(a.nalus) else [], unitsEnd, r))
            == H264.PrependSets(H264.FrameUnits(CopiedOf(a)), H264.UnitLengths(CopiedOf(a)), 3 + unitsEnd, r)
  {
    if !copy {
      assert H264.FrameUnits(CopiedOf(a)) == [] && H264.UnitLengths(CopiedOf(a)) == [];
    }
    if r.Ok? {
      var b, l := H264.FrameUnits(CopiedOf(a)), H264.UnitLengths(CopiedOf(a));
      assert [] + (b + r.value.bytes) == b + r.value.bytes;
      assert [] + (l + r.value.lengths) == l + r.value.lengths;
    }
  }

  /**
   * A record's arrays read back completely: the VPS, SPS and PPS units,
   * framed with start codes and with their lengths, and nothing of the
   * other arrays.
   */
  lemma {:induction false} WalkRoundTrip(arrays: seq<HvcArray>, rest: seq<Byte>, data: seq<Byte>)
    requires ArraysFit(arrays) && data == EncodeArrays(arrays) + rest
    ensures HvcWalk(|arrays|, 0, false, data)
              == Ok(H264.ParsedSets(H264.FrameUnits(CopiedUnits(arrays)), H264.UnitLengths(CopiedUnits(arrays)), |EncodeArrays(arrays)|))
  {
    if arrays == [] {
      assert data == rest;
    } else {
      var a, tail := arrays[0], arrays[1..];
      assert ArraysFit(tail) by {
        forall i | 0 <= i < |tail| ensures 0 < |tail[i].nalus| < 0x1_0000 {
          assert tail[i] == arrays[i + 1];
        }
      }
      assert 0 < |a.nalus| < 0x1_0000;
      var after := EncodeArrays(tail) + rest;
      assert data == EncodeArray(a) + after;
      WalkArray(|arrays|, |tail|, a, after, data);
      WalkRoundTrip(tail, rest, after);
      var mine, theirs := CopiedOf(a), CopiedUnits(tail);
      assert CopiedUnits(arrays) == mine + theirs;
      assert |EncodeArrays(arrays)| == |EncodeArray(a)| + |EncodeArrays(tail)|;
      FrameUnitsAppend(mine, theirs);
      UnitLengthsAppend(mine, theirs);
      PrependParsed(H264.FrameUnits(mine), H264.UnitLengths(mine), |EncodeArray(a)|, HvcWalk(|tail|, 0, false, after),
                    H264.FrameUnits(theirs), H264.UnitLengths(theirs), |EncodeArrays(tail)|);
    }
  }

  /** PrependSets on a successful result. */
  lemma PrependParsed(bytes: seq<Byte>, lengths: seq<nat>, skip: nat, r: Result<H264.ParsedSets>,
                      bytes': seq<Byte>, lengths': seq<nat>, end': nat)
    requires r == Ok(H264.ParsedSets(bytes', lengths', end'))
    ensures H264.PrependSets(bytes, lengths, skip, r) == Ok(H264.ParsedSets(bytes + bytes', lengths + lengths', skip + end'))
  {
  }

  lemma {:induction false} FrameUnitsAppend(a: seq<seq<Byte>>, b: seq<seq<Byte>>)
    ensures H264.FrameUnits(a + b) == H264.FrameUnits(a) + H264.FrameUnits(b)
  {
    if a == [] {
      assert a + b == b;
    } else {
      assert (a + b)[0] == a[0] && (a + b)[1..] == a[1..] + b;
      FrameUnitsAppend(a[1..], b);
    }
  }

  lemma {:induction false} UnitLengthsAppend(a: seq<seq<Byte>>, b: seq<seq<Byte>>)
    ensures H264.UnitLengths(a + b) == H264.UnitLengths(a) + H264.UnitLengths(b)
  {
    if a == [] {
      assert a + b == b;
    } else {
      assert (a + b)[0] == a[0] && (a + b)[1..] == a[1..] + b;
      UnitLengthsAppend(a[1..], b);
    }
  }

  // ---------------------------------------------------------------------
  // The hvcC record as a whole

  /** A record: its 22 fixed bytes, the array count and the arrays. */
  function EncodeHvcRecord(fixed: seq<Byte>, arrays: seq<HvcArray>): seq<Byte>
    requires |fixed| == 22 && |arrays| < 0x100 && ArraysFit(arrays)
  {
    var count: Byte := |arrays|;
    fixed + [count] + EncodeArrays(arrays)
  }

  /**
   * A record of version 1 (the first of its 22 fixed bytes) with its array
   * count and arrays parses to the VPS, SPS and PPS units framed with start
   * codes, whatever follows the arrays.
   */
  lemma ParseHvcConfigRoundTrip(fixed: seq<Byte>, arrays: seq<HvcArray>, rest: seq<Byte>)
    requires |fixed| == 22 && fixed[0] == 1 && |arrays| < 0x100 && ArraysFit(arrays)
    ensures ParseHvcConfig(EncodeHvcRecord(fixed, arrays) + rest)
              == Ok((H264.FrameUnits(CopiedUnits(arrays)), H264.UnitLengths(CopiedUnits(arrays))))
  {
    var data := EncodeHvcRecord(fixed, arrays) + rest;
    var count: Byte := |arrays|;
    RecordLayout(fixed, count, EncodeArrays(arrays), rest);
    var tail := data[23..];
    WalkRoundTrip(arrays, rest, tail);
    ParseHvcConfigOfWalk(data, |arrays|, H264.ParsedSets(H264.FrameUnits(CopiedUnits(arrays)), H264.UnitLengths(CopiedUnits(arrays)), |EncodeArrays(arrays)|));
  }

  /** Where the array count and the arrays sit in a record. */
  lemma RecordLayout(fixed: seq<Byte>, count: Byte, body: seq<Byte>, rest: seq<Byte>)
    requires |fixed| == 22
    ensures var data := fixed + [count] + body + rest;
            |data| >= HEVC_MIN_SIZE && data[0] == fixed[0] && data[21] == fixed[21] && data[22] == count && data[23..] == body + rest
  {
    var data := fixed + [count] + body + rest;
    assert data[23..] == body + rest;
  }

  /** ParseHvcConfig on a version-1 record whose arrays were walked. */
  lemma ParseHvcConfigOfWalk(data: seq<Byte>, count: nat, w: H264.ParsedSets)
    requires |data| >= HEVC_MIN_SIZE && data[0] == 1 && data[22] == count && HvcWalk(count, 0, false, data[23..]) == Ok(w)
    ensures ParseHvcConfig(data) == Ok((w.bytes, w.lengths))
  {
  }

  /** A record whose arrays run past its end, or whose array header has no byte behind it, is refused. */
  lemma ParseHvcConfigTruncated(fixed: seq<Byte>, header: Byte, count: seq<Byte>)
    requires |fixed| == 22 && fixed[0] == 1 && |count| == 2
    ensures ParseHvcConfig(fixed + [1] + [header] + count) == Err(MfEInvalidFormat)
  {
    var data := fixed + [1] + [header] + count;
    assert data[0] == 1 && data[22] == 1 && data[23..] == [header] + count;
  }

  /**
   * The length size of an hvcC record: as written it is 0 or 4 whatever the
   * record says, so a record declaring 4-byte lengths with its reserved
   * bits clear yields 0 and one declaring 2-byte lengths yields 4.
   */
  lemma NaluLengthSizeAsWrittenMisreads(fixed: seq<Byte>, arrays: seq<HvcArray>, rest: seq<Byte>)
    requires |fixed| == 22 && fixed[0] == 1 && fixed[21] == 0xF3 && |arrays| < 0x100 && ArraysFit(arrays)
    ensures var d := Some(EncodeHvcRecord(fixed, arrays) + rest);
            && HevcFormatAsWritten(d).Ok? && HevcFormatAsWritten(d).value.lengthSize == 0
            && HevcFormat(d).Ok? && HevcFormat(d).value.lengthSize == 4
  {
    FormatWithOfRecord(fixed, arrays, rest, H264.NaluLengthSizeAsWritten);
    FormatWithOfRecord(fixed, arrays, rest, H264.NaluLengthSizeField);
    assert H264.NaluLengthSizeAsWritten(fixed[21]) == 0 && H264.NaluLengthSizeField(fixed[21]) == 4;
  }

  /** With the corrected length size, an hvcC record yields 1 to 4 byte lengths and leaves Annex B mode. */
  lemma HevcFormatOfRecord(fixed: seq<Byte>, arrays: seq<HvcArray>, rest: seq<Byte>)
    requires |fixed| == 22 && fixed[0] == 1 && |arrays| < 0x100 && ArraysFit(arrays)
    ensures var f := HevcFormat(Some(EncodeHvcRecord(fixed, arrays) + rest));
            && f.Ok? && !f.value.annexB && f.value.lengthSize == fixed[21] % 4 + 1
            && f.value.spsPps == H264.FrameUnits(CopiedUnits(arrays))
            && f.value.spsPpsLengths == H264.UnitLengths(CopiedUnits(arrays))
  {
    FormatWithOfRecord(fixed, arrays, rest, H264.NaluLengthSizeField);
  }

  /** An hvcC record, whichever way its length size is read. */
  lemma FormatWithOfRecord(fixed: seq<Byte>, arrays: seq<HvcArray>, rest: seq<Byte>, lengthSize: Byte -> nat)
    requires |fixed| == 22 && fixed[0] == 1 && |arrays| < 0x100 && ArraysFit(arrays)
    ensures HevcFormatWith(Some(EncodeHvcRecord(fixed, arrays) + rest), lengthSize)
              == Ok(Nalu.NaluFormat(false, lengthSize(fixed[21]), H264.FrameUnits(CopiedUnits(arrays)), H264.UnitLengths(CopiedUnits(arrays))))
  {
    ParseHvcConfigRoundTrip(fixed, arrays, rest);
    var count: Byte := |arrays|;
    RecordLayout(fixed, count, EncodeArrays(arrays), rest);
  }

  /**
   * Extradata that is not an hvcC record must be an Annex B stream: it is
   * refused exactly when it does not begin with a start code, and otherwise
   * kept as it is, with unit lengths that cover it.
   */
  lemma HevcFormatOfAnnexB(d: seq<Byte>)
    requires |d| > 0 && d[0] != 1
    ensures HevcFormat(Some(d)).Err? <==> !StartsWithStartCode(d)
    ensures HevcFormat(Some(d)).Err? ==> HevcFormat(Some(d)).error == MfEInvalidFileFormat
    ensures HevcFormat(Some(d)).Ok? ==>
              && Nalu.AnnexBNaluLengths(d, 0).Ok?
              && HevcFormat(Some(d)).value == Nalu.NaluFormat(true, 0, d, Nalu.AnnexBNaluLengths(d, 0).value)
              && Sum(HevcFormat(Some(d)).value.spsPpsLengths) == |d|
  {
    assert d[0..] == d;
    Nalu.AnnexBNaluLengthsSucceed(d, 0);
    if StartsWithStartCode(d) {
      Nalu.AnnexBNaluLengthsPartition(d, 0);
    }
  }

  // ---------------------------------------------------------------------
  // HEVCConfigParser's loops, one step at a time

  /** The outer loop reads an array header: its type and unit count. */
  lemma WalkHeaderStep(data: seq<Byte>, goal: Result<H264.ParsedSets>, arrays: nat, pos: nat, bytes: seq<Byte>, lengths: seq<nat>,
                       arrays': nat, pos': nat, nalus: nat, copy: bool)
    requires pos + 3 < |data| && arrays == arrays' + 1 && pos' == pos + 3
    requires nalus == data[pos + 1] as nat * 0x100 + data[pos + 2] as nat && copy == IsParameterSetType(data[pos] % 0x40)
    requires goal == H264.PrependSets(bytes, lengths, pos, HvcWalk(arrays, 0, false, data[pos..]))
    ensures goal == H264.PrependSets(bytes, lengths, pos', HvcWalk(arrays', nalus, copy, data[pos'..]))
  {
    var d := data[pos..];
    assert d[0] == data[pos] && d[1] == data[pos + 1] && d[2] == data[pos + 2] && d[3..] == data[pos'..];
    var r := HvcWalk(arrays', nalus, copy, data[pos'..]);
    assert HvcWalk(arrays, 0, false, d) == H264.PrependSets([], [], 3, r);
    if r.Ok? {
      assert bytes + ([] + r.value.bytes) == bytes + r.value.bytes;
      assert lengths + ([] + r.value.lengths) == lengths + r.value.lengths;
    }
  }

  /** The inner loop reads one unit, copying it when the array's type is copied. */
  lemma WalkUnitStep(data: seq<Byte>, n: nat, goal: Result<H264.ParsedSets>, arrays: nat, copy: bool,
                     nalus: nat, pos: nat, bytes: seq<Byte>, lengths: seq<nat>,
                     nalus': nat, pos': nat, bytes': seq<Byte>, lengths': seq<nat>)
    requires pos <= |data| && Nalu.GetAvcNaluLength(data[pos..], 2) == Ok(n) && pos' == pos + 2 + n
    requires nalus == nalus' + 1
    requires bytes' == (if copy then bytes + START_CODE + data[pos + 2..pos'] else bytes)
    requires lengths' == (if copy then lengths + [4 + n] else lengths)
    requires goal == H264.PrependSets(bytes, lengths, pos, HvcWalk(arrays, nalus, copy, data[pos..]))
    ensures pos' <= |data|
    ensures goal == H264.PrependSets(bytes', lengths', pos', HvcWalk(arrays, nalus', copy, data[pos'..]))
  {
    var d := data[pos..];
    var payload := data[pos + 2..pos'];
    assert d[2..2 + n] == payload && d[2 + n..] == data[pos'..];
    var r := HvcWalk(arrays, nalus', copy, data[pos'..]);
    assert HvcWalk(arrays, nalus, copy, d)
             == H264.PrependSets(if copy then START_CODE + payload else [], if copy then [4 + n] else [], 2 + n, r);
    if copy {
      H264.PrependSetsTwice(bytes, lengths, pos, START_CODE, data[pos + 2..pos'], [4 + n], 2 + n, r);
    } else if r.Ok? {
      assert bytes + ([] + r.value.bytes) == bytes + r.value.bytes;
      assert lengths + ([] + r.value.lengths) == lengths + r.value.lengths;
    }
  }

  /** An array header with no byte behind it ends the walk with MF_E_INVALID_FORMAT. */
  lemma WalkHeaderStops(data: seq<Byte>, goal: Result<H264.ParsedSets>, arrays: nat, pos: nat, bytes: seq<Byte>, lengths: seq<nat>)
    requires pos <= |data| && pos + 3 >= |data| && arrays > 0
    requires goal == H264.PrependSets(bytes, lengths, pos, HvcWalk(arrays, 0, false, data[pos..]))
    ensures goal == Err(MfEInvalidFormat)
  {
  }

  /** A unit length that does not fit ends the walk with its error. */
  lemma WalkUnitStops(data: seq<Byte>, goal: Result<H264.ParsedSets>, arrays: nat, copy: bool,
                      nalus: nat, pos: nat, bytes: seq<Byte>, lengths: seq<nat>)
    requires pos <= |data| && nalus > 0 && Nalu.GetAvcNaluLength(data[pos..], 2).Err?
    requires goal == H264.PrependSets(bytes, lengths, pos, HvcWalk(arrays, nalus, copy, data[pos..]))
    ensures goal == Err(Nalu.GetAvcNaluLength(data[pos..], 2).error)
  {
  }

  /** GetSpsPpsData's target: what is left of the walk after the fixed part decides ParseHvcConfig. */
  lemma GoalIsConfig(data: seq<Byte>, goal: Result<H264.ParsedSets>)
    requires |data| >= HEVC_MIN_SIZE && data[0] == 1
    requires goal == H264.PrependSets([], [], 23, HvcWalk(data[22], 0, false, data[23..]))
    ensures goal.Err? ==> ParseHvcConfig(data) == Err(goal.error)
    ensures goal.Ok? ==> ParseHvcConfig(data) == Ok((goal.value.bytes, goal.value.lengths))
  {
    var w := HvcWalk(data[22], 0, false, data[23..]);
    if w.Ok? {
      assert [] + w.value.bytes == w.value.bytes && [] + w.value.lengths == w.value.lengths;
    }
  }

  /** HEVCConfigParser: an hvcC record that passed the constructor's checks. */
  class HevcConfigParser {
    const data: seq<Byte>

    constructor (data: seq<Byte>)
      requires |data| >= HEVC_MIN_SIZE && data[0] == 1
      ensures this.data == data
    {
      this.data := data;
    }

    /** The constructor's checks: at least MIN_SIZE bytes, version 1. */
    static method Create(data: seq<Byte>) returns (r: Result<HevcConfigParser>)
      ensures r.Err? <==> |data| < HEVC_MIN_SIZE || data[0] != 1
      ensures r.Err? ==> r.error == MfEInvalidFileFormat
      ensures r.Ok? ==> fresh(r.value) && r.value.data == data
    {
      if |data| < HEVC_MIN_SIZE || data[0] != 1 {
        return Err(MfEInvalidFileFormat);
      }
      var parser := new HevcConfigParser(data);
      return Ok(parser);
    }

    /** GetNaluLengthSize, corrected: lengthSizeMinusOne (the low two bits of byte 21) plus one. */
    function GetNaluLengthSize(): (k: nat)
      requires |data| >= HEVC_MIN_SIZE
      ensures 1 <= k <= 4 && k - 1 == data[21] % 4
    {
      H264.NaluLengthSizeField(data[21])
    }

    /**
     * GetSpsPpsData's inner loop: the nalus units of one array from pos,
     * each appended behind a start code when the array is copied.
     */
    method ReadUnits(ghost arrays: nat, nalus: nat, copy: bool, pos: nat, bytes: seq<Byte>, lengths: seq<nat>,
                     ghost goal: Result<H264.ParsedSets>)
      returns (r: Result<()>, pos': nat, bytes': seq<Byte>, lengths': seq<nat>)
      requires pos <= |data|
      requires goal == H264.PrependSets(bytes, lengths, pos, HvcWalk(arrays, nalus, copy, data[pos..]))
      ensures r.Err? ==> goal == Err(r.error)
      ensures r.Ok? ==> pos' <= |data| && goal == H264.PrependSets(bytes', lengths', pos', HvcWalk(arrays, 0, copy, data[pos'..]))
    {
      pos', bytes', lengths' := pos, bytes, lengths;
      var j: nat := 0;
      while j < nalus
        invariant j <= nalus && pos' <= |data|
        invariant goal == H264.PrependSets(bytes', lengths', pos', HvcWalk(arrays, nalus - j, copy, data[pos'..]))
      {
        var found := Nalu.GetAvcNaluLength(data[pos'..], 2);
        if found.Err? {
          WalkUnitStops(data, goal, arrays, copy, nalus - j, pos', bytes', lengths');
          return Err(found.error), pos', bytes', lengths';
        }
        var n := found.value;
        ghost var pos0, bytes0, lengths0, left0 := pos', bytes', lengths', nalus - j;
        if copy {
          bytes' := bytes' + START_CODE + data[pos' + 2..pos' + 2 + n];
          lengths' := lengths' + [4 + n];
        }
        pos' := pos' + 2 + n;
        j := j + 1;
        WalkUnitStep(data, n, goal, arrays, copy, left0, pos0, bytes0, lengths0, nalus - j, pos', bytes', lengths');
      }
      r := Ok(());
    }

    /**
     * GetSpsPpsData: walks the arrays behind the array count at byte 22,
     * copying the units of VPS, SPS and PPS arrays behind start codes.
     */
    method GetSpsPpsData() returns (r: Result<(seq<Byte>, seq<nat>)>)
      requires |data| >= HEVC_MIN_SIZE && data[0] == 1
      ensures r == ParseHvcConfig(data)
    {
      var bytes: seq<Byte> := [];
      var lengths: seq<nat> := [];
      var pos: nat := 22;
      var count := data[pos];
      pos := pos + 1;
      ghost var goal := H264.PrependSets([], [], 23, HvcWalk(count, 0, false, data[23..]));
      GoalIsConfig(data, goal);
      var i: nat := 0;
      ghost var left: nat := count;
      while i < count
        invariant i <= count && pos <= |data| && left == count - i
        invariant goal == H264.PrependSets(bytes, lengths, pos, HvcWalk(left, 0, false, data[pos..]))
      {
        if pos + 3 >= |data| {
          WalkHeaderStops(data, goal, left, pos, bytes, lengths);
          return Err(MfEInvalidFormat);
        }
        var naluType := data[pos] % 0x40;
        var naluCount := data[pos + 1] as nat * 0x100 + data[pos + 2] as nat;
        var copy := IsParameterSetType(naluType);
        ghost var left' := left - 1;
        WalkHeaderStep(data, goal, left, pos, bytes, lengths, left', pos + 3, naluCount, copy);
        var read;
        read, pos, bytes, lengths := ReadUnits(left', naluCount, copy, pos + 3, bytes, lengths, goal);
        if read.Err? {
          return Err(read.error);
        }
        WalkCopyIrrelevant(left', copy, data[pos..]);
        i, left := i + 1, left';
      }
      assert bytes + [] == bytes && lengths + [] == lengths;
      return Ok((bytes, lengths));
    }
  }

  /**
   * HEVCSampleProvider: a NAL-unit sample provider whose bitstream format
   * is chosen from the extradata when the provider is created. Samples are
   * then transformed by NALUSampleProvider::TransformSample.
   */
  class HevcSampleProvider {
    const nalu: Nalu.NaluSampleProvider

    constructor (nalu: Nalu.NaluSampleProvider)
      ensures this.nalu == nalu
    {
      this.nalu := nalu;
    }

    /** HEVCSampleProvider's constructor, failing as the parsers it calls throw. */
    static method Create(extradata: Option<seq<Byte>>) returns (r: Result<HevcSampleProvider>)
      ensures r.Err? <==> HevcFormat(extradata).Err?
      ensures r.Err? ==> r.error == HevcFormat(extradata).error
      ensures r.Ok? ==> fresh(r.value) && fresh(r.value.nalu) && r.value.nalu.Format() == HevcFormat(extradata).value
    {
      var base := new Nalu.NaluSampleProvider();
      if extradata.Some? && |extradata.value| > 0 {
        var d := extradata.value;
        if d[0] == 1 {
          base.isBitstreamAnnexB := false;
          var parser := HevcConfigParser.Create(d);
          if parser.Err? {
            return Err(parser.error);
          }
          base.naluLengthSize := parser.value.GetNaluLengthSize();
          var sets := parser.value.GetSpsPpsData();
          if sets.Err? {
            return Err(sets.error);
          }
          base.spsPpsData, base.spsPpsNaluLengths := sets.value.0, sets.value.1;
        } else {
          var parser := Nalu.AnnexBParser.Create(d);
          if parser.Err? {
            return Err(parser.error);
          }
          var sets := parser.value.GetSpsPpsData();
          if sets.Err? {
            return Err(sets.error);
          }
          base.spsPpsData, base.spsPpsNaluLengths := sets.value.0, sets.value.1;
        }
      }
      var provider := new HevcSampleProvider(base);
      return Ok(provider);
    }
  }
}
