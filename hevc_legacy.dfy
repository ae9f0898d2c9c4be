// The HEVC sample provider of the older library sources. Each packet is
// written to a data writer as an Annex B byte stream. Before the first
// packet the provider writes the parameter sets found in the extradata,
// once. The extradata is either an hvcC record, whose arrays are walked, or
// a run of NAL units behind 4-byte lengths. Every unit of the packet then
// has its length prefix replaced by a start code.
//
// As in H264Avc, the data writer is modelled by the bytes a call writes to
// it, returned together with the HRESULT. Bytes written before a failure
// stay in the writer.

module HevcLegacy {
  import opened Common
  import H264
  import H264Avc
  import Hevc

  type Written = H264Avc.Written

  // ---------------------------------------------------------------------
  // ReadNALLength

  /** A 32-bit pattern read as a two's complement `int`. */
  function Int32(x: int): (r: int)
    requires 0 <= x < UINT32_MODULUS
    ensures -0x8000_0000 <= r < 0x8000_0000 && r % UINT32_MODULUS == x
  {
    if x < 0x8000_0000 then x else x - UINT32_MODULUS
  }

  /**
   * ReadNALLength: the big-endian value of lenSize bytes from index, for a
   * size of 1 to 4, and -1 for any other size. The 4-byte value is shifted
   * together in an `int`, so a leading byte of 0x80 or more gives a negative
   * length.
   */
  function ReadNalLength(buffer: seq<Byte>, index: nat, lenSize: nat): (r: int)
    requires 1 <= lenSize <= 4 ==> index + lenSize <= |buffer|
    ensures -0x8000_0000 <= r < 0x8000_0000
    ensures !(1 <= lenSize <= 4) ==> r == -1
  {
    if lenSize == 4 then
      Int32(buffer[index] as int * 0x100_0000 + buffer[index + 1] as int * 0x1_0000
            + buffer[index + 2] as int * 0x100 + buffer[index + 3] as int)
    else if lenSize == 3 then buffer[index] as int * 0x1_0000 + buffer[index + 1] as int * 0x100 + buffer[index + 2] as int
    else if lenSize == 2 then buffer[index] as int * 0x100 + buffer[index + 1] as int
    else if lenSize == 1 then buffer[index] as int
    else -1
  }

  /**
   * Read as 32 bits, the length is the big-endian value of its bytes; it
   * is that value itself below 4 bytes, and negative exactly for a 4-byte
   * length whose leading byte has its top bit set.
   */
  lemma ReadNalLengthIsBigEndian(buffer: seq<Byte>, index: nat, lenSize: nat)
    requires 1 <= lenSize <= 4 && index + lenSize <= |buffer|
    ensures ReadNalLength(buffer, index, lenSize) % UINT32_MODULUS == BigEndian(buffer[index..index + lenSize])
    ensures lenSize < 4 ==> ReadNalLength(buffer, index, lenSize) == BigEndian(buffer[index..index + lenSize])
    ensures ReadNalLength(buffer, index, lenSize) < 0 <==> lenSize == 4 && buffer[index] >= 0x80
  {
    ReadNalLengthAgrees(buffer, index, lenSize);
    H264.ReadNaluLengthIsBigEndian(lenSize, buffer[index..]);
    assert buffer[index..][..lenSize] == buffer[index..index + lenSize];
  }

  /** The same length as the newer sources' ReadNaluLength reads, as 32 bits. */
  lemma ReadNalLengthAgrees(buffer: seq<Byte>, index: nat, lenSize: nat)
    requires 1 <= lenSize <= 4 && index + lenSize <= |buffer|
    ensures H264.ReadNaluLength(lenSize, buffer[index..]).Ok?
    ensures ReadNalLength(buffer, index, lenSize) % UINT32_MODULUS == H264.ReadNaluLength(lenSize, buffer[index..]).value
    ensures lenSize < 4 ==> ReadNalLength(buffer, index, lenSize) == H264.ReadNaluLength(lenSize, buffer[index..]).value
  {
    var data := buffer[index..];
    assert data[0] == buffer[index];
    if lenSize >= 2 {
      assert data[1] == buffer[index + 1];
    }
    if lenSize >= 3 {
      assert data[2] == buffer[index + 2];
    }
    if lenSize == 4 {
      assert data[3] == buffer[index + 3];
    }
  }

  // ---------------------------------------------------------------------
  // WriteNALPacket

  /**
   * WriteNALPacket's do-while loop from index, with k = m_nalLenSize: k
   * bytes must be left for the length, which is read as 32 bits (a size
   * other than 1 to 4 reads -1, that is 0xFFFFFFFF). The start code is
   * written next, and only then is the unit checked against the packet in
   * 32-bit arithmetic with an explicit overflow test; a unit that does not
   * fit fails with the start code already written.
   */
  function LegacyUnitsFrom(pkt: seq<Byte>, index: nat, k: nat): Written
    decreases |pkt| - index
  {
    if |pkt| < index + k then H264Avc.Written(EFail, [])
    else
      var size := ReadNalLength(pkt, index, k) % UINT32_MODULUS;
      var start := index + k;
      if |pkt| < (start + size) % UINT32_MODULUS || UINT32_MAX - start < size then H264Avc.Written(EFail, START_CODE)
      else
        var unit := START_CODE + pkt[start..start + size];
        if start + size < |pkt| then H264Avc.Prepend(unit, LegacyUnitsFrom(pkt, start + size, k))
        else H264Avc.Written(SOk, unit)
  }

  /** What WriteNALPacket writes for a whole packet with length size k. */
  function LegacyNalPacket(pkt: seq<Byte>, k: nat): Written
  {
    LegacyUnitsFrom(pkt, 0, k)
  }

  /**
   * For a length size of 1 to 4, WriteNALPacket succeeds exactly when the
   * newer sources' framing loop succeeds on the same units, and then writes
   * the same bytes.
   */
  lemma {:induction false} LegacyUnitsAreFrames(pkt: seq<Byte>, index: nat, k: nat)
    requires 1 <= k <= 4 && index < |pkt| <= UINT32_MAX
    ensures H264Avc.Agree(LegacyUnitsFrom(pkt, index, k), H264.Frames(k, [], [], false, pkt[index..], false))
    decreases |pkt| - index
  {
    var data := pkt[index..];
    if |pkt| < index + k {
      assert H264.ReadNaluLength(k, data).Err?;
    } else {
      ReadNalLengthAgrees(pkt, index, k);
      var size := H264.ReadNaluLength(k, data).value;
      var next := index + k + size;
      if next > |pkt| {
        H264Avc.OverrunCheck(index + k, size, |pkt|);
      } else {
        var unit := START_CODE + pkt[index + k..next];
        var rest := H264.Frames(k, [], [], false, pkt[next..], false);
        LegacyUnitsStep(pkt, index, k, size, next, unit);
        FramesStepAt(pkt, index, k, size, next);
        if next < |pkt| {
          LegacyUnitsAreFrames(pkt, next, k);
          H264Avc.SameOutput(unit, [4 + size], LegacyUnitsFrom(pkt, next, k), rest);
        } else {
          assert pkt[next..] == [];
          assert unit + [] == unit;
        }
      }
    }
  }

  /** One pass of the loop over a unit that fits. */
  lemma LegacyUnitsStep(pkt: seq<Byte>, index: nat, k: nat, size: nat, next: nat, unit: seq<Byte>)
    requires index + k <= |pkt| <= UINT32_MAX && next == index + k + size <= |pkt|
    requires size == ReadNalLength(pkt, index, k) % UINT32_MODULUS && unit == START_CODE + pkt[index + k..next]
    ensures next < |pkt| ==> LegacyUnitsFrom(pkt, index, k) == H264Avc.Prepend(unit, LegacyUnitsFrom(pkt, next, k))
    ensures next == |pkt| ==> LegacyUnitsFrom(pkt, index, k) == H264Avc.Written(SOk, unit)
  {
    H264Avc.OverrunCheck(index + k, size, |pkt|);
  }

  /** A unit running past the end fails, with its start code written. */
  lemma LegacyUnitsOverrun(pkt: seq<Byte>, index: nat, k: nat, size: nat)
    requires index + k <= |pkt| && size == ReadNalLength(pkt, index, k) % UINT32_MODULUS
    requires |pkt| < (index + k + size) % UINT32_MODULUS || UINT32_MAX - (index + k) < size
    ensures LegacyUnitsFrom(pkt, index, k) == H264Avc.Written(EFail, START_CODE)
  {
  }

  /** The framing loop over the unit at index, seen from the whole packet. */
  lemma FramesStepAt(pkt: seq<Byte>, index: nat, k: nat, size: nat, next: nat)
    requires index + k <= |pkt| && H264.ReadNaluLength(k, pkt[index..]) == Ok(size) && next == index + k + size <= |pkt|
    ensures H264.Frames(k, [], [], false, pkt[index..], false)
              == H264.PrependFraming(START_CODE + pkt[index + k..next], [4 + size], H264.Frames(k, [], [], false, pkt[next..], false))
  {
    H264.FramesStepPlain(k, [], [], false, pkt[index..], size);
    assert pkt[index..][k..k + size] == pkt[index + k..next];
    assert pkt[index..][k + size..] == pkt[next..];
  }

  /**
   * A packet of units behind k-byte lengths is written as the same units
   * behind start codes.
   */
  lemma LegacyNalPacketRoundTrip(units: seq<seq<Byte>>, k: nat)
    requires 1 <= k <= 4 && units != [] && H264.UnitsFit(k, units) && |H264.EncodeUnits(k, units)| <= UINT32_MAX
    ensures LegacyNalPacket(H264.EncodeUnits(k, units), k) == H264Avc.Written(SOk, H264.FrameUnits(units))
  {
    var pkt := H264.EncodeUnits(k, units);
    assert |pkt| > 0 by {
      assert pkt == ToBigEndian(|units[0]|, k) + units[0] + H264.EncodeUnits(k, units[1..]);
    }
    assert pkt[0..] == pkt;
    LegacyUnitsAreFrames(pkt, 0, k);
    H264.FramesRoundTrip(k, [], [], false, units);
  }

  /**
   * The legacy writer's output next to H264AVCSampleProvider's, which
   * checks the unit before writing its start code: same HRESULT, same bytes,
   * except that a failure may leave one start code more.
   */
  predicate SameOrDangling(legacy: Written, avc: Written)
  {
    legacy.hr == avc.hr && (legacy.bytes == avc.bytes || (legacy.hr == EFail && legacy.bytes == avc.bytes + START_CODE))
  }

  /**
   * With 4-byte lengths the legacy WriteNALPacket writes what the H.264
   * AVC provider writes, except for the start code it leaves dangling when
   * a unit runs past the packet.
   */
  lemma {:induction false} LegacyMatchesAvc(pkt: seq<Byte>, index: nat)
    requires |pkt| <= UINT32_MAX
    ensures SameOrDangling(LegacyUnitsFrom(pkt, index, 4), H264Avc.NalUnitsFrom(pkt, index))
    decreases |pkt| - index
  {
    if |pkt| >= index + 4 {
      ReadNalLengthAgrees(pkt, index, 4);
      var size := H264.ReadNaluLength(4, pkt[index..]).value;
      var next := index + 4 + size;
      if next > |pkt| {
        BothOverrun(pkt, index, size);
      } else {
        LegacyUnitsStep(pkt, index, 4, size, next, START_CODE + pkt[index + 4..next]);
        H264Avc.NalUnitsStep(pkt, index, size, next);
        if next < |pkt| {
          LegacyMatchesAvc(pkt, next);
          SameOrDanglingPrepend(START_CODE + pkt[index + 4..next], LegacyUnitsFrom(pkt, next, 4), H264Avc.NalUnitsFrom(pkt, next));
        }
      }
    }
  }

  /** A unit running past the end fails both writers; the legacy one has written its start code. */
  lemma BothOverrun(pkt: seq<Byte>, index: nat, size: nat)
    requires index + 4 <= |pkt| <= UINT32_MAX && index + 4 + size > |pkt|
    requires size == H264.ReadNaluLength(4, pkt[index..]).value && size == ReadNalLength(pkt, index, 4) % UINT32_MODULUS
    ensures LegacyUnitsFrom(pkt, index, 4) == H264Avc.Written(EFail, START_CODE)
    ensures H264Avc.NalUnitsFrom(pkt, index) == H264Avc.Written(EFail, [])
  {
    H264Avc.OverrunCheck(index + 4, size, |pkt|);
  }

  /** Writing the same unit in front of both outputs keeps them alike. */
  lemma SameOrDanglingPrepend(unit: seq<Byte>, l: Written, a: Written)
    requires SameOrDangling(l, a)
    ensures SameOrDangling(H264Avc.Prepend(unit, l), H264Avc.Prepend(unit, a))
  {
    if l.bytes != a.bytes {
      assert unit + (a.bytes + START_CODE) == unit + a.bytes + START_CODE;
    }
  }

  /**
   * A packet whose single unit claims 9 bytes but carries 2 fails in both
   * writers; the legacy one has written a start code by then.
   */
  lemma DanglingStartCode()
    ensures LegacyNalPacket([0, 0, 0, 9, 1, 2], 4) == H264Avc.Written(EFail, START_CODE)
    ensures H264Avc.NalPacket([0, 0, 0, 9, 1, 2]) == H264Avc.Written(EFail, [])
  {
    var pkt: seq<Byte> := [0, 0, 0, 9, 1, 2];
    assert ReadNalLength(pkt, 0, 4) == 9;
    assert H264.ReadNaluLength(4, pkt[0..]) == Ok(9);
  }

  // ---------------------------------------------------------------------
  // GetSPSAndPPSBuffer

  /**
   * The hvcC walk of GetSPSAndPPSBuffer over the rest of the record, with
   * `arrays` arrays still to read after the `nalus` units left in the
   * current one. An array header is a type byte, which is not looked at,
   * and a 2-byte unit count; each unit is a 2-byte length and that many
   * bytes, and is refused when it is longer than what remains. Every unit
   * of every array is written behind a start code. A header is read
   * without a bounds check: its bytes past the end of the record come from
   * the zeroed padding behind FFmpeg's extradata (see HeaderBytes). A unit
   * length read past the end leaves the read position beyond the record, so
   * the length check refuses it whatever the padding holds.
   */
  function LegacyWalk(arrays: nat, nalus: nat, data: seq<Byte>): (w: Written)
    ensures w.hr == SOk || w.hr == EFail
    decreases arrays, nalus
  {
    if nalus > 0 then
      if |data| < 2 then H264Avc.Written(EFail, [])
      else
        var n := ReadNalLength(data, 0, 2);
        if |data| - 2 < n then H264Avc.Written(EFail, [])
        else H264Avc.Prepend(START_CODE + data[2..2 + n], LegacyWalk(arrays, nalus - 1, data[2 + n..]))
    else if arrays == 0 then H264Avc.Written(SOk, [])
    else LegacyWalk(arrays - 1, ReadNalLength(HeaderBytes(data), 1, 2), if |data| < 3 then [] else data[3..])
  }

  /**
   * The three bytes of an array header read at the start of data, those
   * past its end taken from the zeroed padding that follows the record.
   */
  function HeaderBytes(data: seq<Byte>): (h: seq<Byte>)
    ensures |h| == 3
    ensures forall k :: 0 <= k < 3 ==> h[k] == if k < |data| then data[k] else 0
  {
    (data + [0, 0, 0])[..3]
  }

  /**
   * A header that leaves the record reads a zero count when only its type
   * byte is inside, so the walk goes on with the next array and nothing is
   * written; once the record is used up, every further array is empty.
   */
  lemma {:induction false} LegacyWalkPastRecord(arrays: nat)
    ensures LegacyWalk(arrays, 0, []) == H264Avc.Written(SOk, [])
  {
    if arrays > 0 {
      assert ReadNalLength(HeaderBytes([]), 1, 2) == 0;
      LegacyWalkPastRecord(arrays - 1);
    }
  }

  /**
   * The loop over extradata made of NAL units behind 4-byte lengths: while
   * more than 4 bytes remain, a length is read and the unit is refused when
   * it is longer than what remains. The length is read as an unsigned
   * 32-bit value (see NegativeLengthAdmittedAsWritten for the signed read
   * of the library).
   */
  function LegacyPlain(data: seq<Byte>): (w: Written)
    ensures w.hr == SOk || w.hr == EFail
    decreases |data|
  {
    if |data| <= 4 then H264Avc.Written(SOk, [])
    else
      var n := ReadNalLength(data, 0, 4) % UINT32_MODULUS;
      if |data| - 4 < n then H264Avc.Written(EFail, [])
      else H264Avc.Prepend(START_CODE + data[4..4 + n], LegacyPlain(data[4 + n..]))
  }

  /**
   * The bound check of the NAL-unit extradata loop as written, with the
   * length read into a signed `int`: true when it lets the unit through.
   */
  predicate PlainUnitAdmittedAsWritten(data: seq<Byte>)
    requires |data| > 4
  {
    !(|data| - 4 < ReadNalLength(data, 0, 4))
  }

  /**
   * A length of 0x80000000 reads as a negative `int`, which the check as
   * written lets through although the unit is far longer than the one byte
   * that remains; read as unsigned, the unit is refused.
   */
  lemma NegativeLengthAdmittedAsWritten()
    ensures ReadNalLength([0x80, 0, 0, 0, 0], 0, 4) == -0x8000_0000
    ensures PlainUnitAdmittedAsWritten([0x80, 0, 0, 0, 0])
    ensures LegacyPlain([0x80, 0, 0, 0, 0]) == H264Avc.Written(EFail, [])
  {
  }

  /** The extradata is an hvcC record unless its first bytes look like a 00 00 00/01 prefix. */
  predicate IsHvcC(d: seq<Byte>)
  {
    |d| > 22 && (d[0] != 0 || d[1] != 0 || d[2] > 1)
  }

  /** What GetSPSAndPPSBuffer writes, and the length size it sets (None: left as it was). */
  datatype ExtradataWrite = ExtradataWrite(w: Written, nalLenSize: Option<nat>)

  /**
   * GetSPSAndPPSBuffer: missing extradata or fewer than 4 bytes fail and
   * leave the length size alone. An hvcC record sets the length size from
   * the low two bits of byte 21 and walks the byte-22 arrays from byte 23;
   * other extradata sets it to 4 and is read as NAL units behind 4-byte
   * lengths.
   */
  function LegacyExtradata(extradata: Option<seq<Byte>>): (r: ExtradataWrite)
    ensures r.nalLenSize.Some? <==> extradata.Some? && |extradata.value| >= 4
    ensures r.nalLenSize.Some? ==> 1 <= r.nalLenSize.value <= 4
    ensures r.w.hr == SOk || (r.w.hr == EFail && (r.nalLenSize.None? ==> r.w.bytes == []))
  {
    if extradata.None? || |extradata.value| < 4 then ExtradataWrite(H264Avc.Written(EFail, []), None)
    else
      var d := extradata.value;
      if IsHvcC(d) then ExtradataWrite(LegacyWalk(d[22], 0, d[23..]), Some(d[21] % 4 + 1))
      else ExtradataWrite(LegacyPlain(d), Some(4))
  }

  /** Every unit of every array, in record order. */
  function AllUnits(arrays: seq<Hevc.HvcArray>): seq<seq<Byte>>
  {
    if arrays == [] then [] else arrays[0].nalus + AllUnits(arrays[1..])
  }

  /** The units of one array are written behind start codes, and the walk goes on after them. */
  lemma {:induction false} LegacyWalkUnits(arrays: nat, nalus: seq<H264.ParameterSet>, after: seq<Byte>)
    ensures LegacyWalk(arrays, |nalus|, H264.EncodeSets(nalus) + after)
              == H264Avc.Prepend(H264.FrameUnits(nalus), LegacyWalk(arrays, 0, after))
  {
    if nalus == [] {
      assert H264.EncodeSets(nalus) + after == after;
      assert [] + LegacyWalk(arrays, 0, after).bytes == LegacyWalk(arrays, 0, after).bytes;
    } else {
      var s, tail := nalus[0], nalus[1..];
      var rest := H264.EncodeSets(tail) + after;
      assert H264.EncodeSets(nalus) + after == H264.Uint16(|s|) + s + rest;
      WalkUnitOf(arrays, |nalus|, s, rest, H264.EncodeSets(nalus) + after);
      LegacyWalkUnits(arrays, tail, after);
      H264Avc.PrependTwice(START_CODE + s, H264.FrameUnits(tail), LegacyWalk(arrays, 0, after));
    }
  }

  /** A unit behind its 2-byte length is written behind a start code. */
  lemma WalkUnitOf(arrays: nat, nalus: nat, s: H264.ParameterSet, rest: seq<Byte>, data: seq<Byte>)
    requires nalus > 0 && data == H264.Uint16(|s|) + s + rest
    ensures LegacyWalk(arrays, nalus, data) == H264Avc.Prepend(START_CODE + s, LegacyWalk(arrays, nalus - 1, rest))
  {
    assert ReadNalLength(data, 0, 2) == |s|;
    assert data[2..2 + |s|] == s && data[2 + |s|..] == rest;
  }

  /** One array of the record: its header, then its units. */
  lemma LegacyWalkArray(arrays: nat, a: Hevc.HvcArray, after: seq<Byte>, data: seq<Byte>)
    requires 0 < |a.nalus| < 0x1_0000 && data == Hevc.EncodeArray(a) + after
    ensures LegacyWalk(arrays + 1, 0, data) == H264Avc.Prepend(H264.FrameUnits(a.nalus), LegacyWalk(arrays, 0, after))
  {
    var count := H264.Uint16(|a.nalus|);
    var units := H264.EncodeSets(a.nalus);
    assert data == [a.header] + count + (units + after);
    assert |units| >= 2 by {
      assert units == H264.Uint16(|a.nalus[0]|) + a.nalus[0] + H264.EncodeSets(a.nalus[1..]);
    }
    assert ReadNalLength(data, 1, 2) == |a.nalus|;
    assert data[3..] == units + after;
    LegacyWalkUnits(arrays, a.nalus, after);
  }

  /**
   * The arrays of an hvcC record are written as all their units behind
   * start codes, whatever their type and whatever follows them.
   */
  lemma {:induction false} LegacyWalkRoundTrip(arrays: seq<Hevc.HvcArray>, rest: seq<Byte>, data: seq<Byte>)
    requires Hevc.ArraysFit(arrays) && data == Hevc.EncodeArrays(arrays) + rest
    ensures LegacyWalk(|arrays|, 0, data) == H264Avc.Written(SOk, H264.FrameUnits(AllUnits(arrays)))
  {
    if arrays != [] {
      var a, tail := arrays[0], arrays[1..];
      assert Hevc.ArraysFit(tail) by {
        forall i | 0 <= i < |tail| ensures 0 < |tail[i].nalus| < 0x1_0000 {
          assert tail[i] == arrays[i + 1];
        }
      }
      assert 0 < |a.nalus| < 0x1_0000;
      var after := Hevc.EncodeArrays(tail) + rest;
      assert data == Hevc.EncodeArray(a) + after;
      LegacyWalkArray(|tail|, a, after, data);
      LegacyWalkRoundTrip(tail, rest, after);
      Hevc.FrameUnitsAppend(a.nalus, AllUnits(tail));
    }
  }

  /**
   * An hvcC record, recognised by its first three bytes, sets the length
   * size from byte 21 and is written as all the units of its arrays.
   */
  lemma LegacyExtradataOfRecord(fixed: seq<Byte>, arrays: seq<Hevc.HvcArray>, rest: seq<Byte>)
    requires |fixed| == 22 && (fixed[0] != 0 || fixed[1] != 0 || fixed[2] > 1)
    requires |arrays| < 0x100 && Hevc.ArraysFit(arrays)
    ensures LegacyExtradata(Some(Hevc.EncodeHvcRecord(fixed, arrays) + rest))
              == ExtradataWrite(H264Avc.Written(SOk, H264.FrameUnits(AllUnits(arrays))), Some(fixed[21] % 4 + 1))
  {
    var count: Byte := |arrays|;
    var w := H264Avc.Written(SOk, H264.FrameUnits(AllUnits(arrays)));
    RecordWalk(fixed, arrays, rest, count, w);
    LegacyExtradataOfWalk(Hevc.EncodeHvcRecord(fixed, arrays) + rest, count, w, fixed[21] % 4 + 1);
  }

  /** The record is recognised as hvcC and its arrays are walked. */
  lemma RecordWalk(fixed: seq<Byte>, arrays: seq<Hevc.HvcArray>, rest: seq<Byte>, count: Byte, w: Written)
    requires |fixed| == 22 && (fixed[0] != 0 || fixed[1] != 0 || fixed[2] > 1)
    requires |arrays| < 0x100 && Hevc.ArraysFit(arrays) && count == |arrays|
    requires w == H264Avc.Written(SOk, H264.FrameUnits(AllUnits(arrays)))
    ensures var data := Hevc.EncodeHvcRecord(fixed, arrays) + rest;
            IsHvcC(data) && data[21] == fixed[21] && data[22] == count && LegacyWalk(count, 0, data[23..]) == w
  {
    var body := Hevc.EncodeArrays(arrays);
    HvcCLayout(fixed, count, body, rest, fixed + [count] + body + rest);
    LegacyWalkRoundTrip(arrays, rest, (fixed + [count] + body + rest)[23..]);
  }

  /** The header bytes and the arrays of a record, as GetSPSAndPPSBuffer reads them. */
  lemma HvcCLayout(fixed: seq<Byte>, count: Byte, body: seq<Byte>, rest: seq<Byte>, data: seq<Byte>)
    requires |fixed| == 22 && (fixed[0] != 0 || fixed[1] != 0 || fixed[2] > 1) && data == fixed + [count] + body + rest
    ensures IsHvcC(data) && data[21] == fixed[21] && data[22] == count && data[23..] == body + rest
  {
    assert data[..22] == fixed;
    assert data[23..] == body + rest;
  }

  /** GetSPSAndPPSBuffer on an hvcC record whose arrays were walked. */
  lemma LegacyExtradataOfWalk(data: seq<Byte>, count: nat, w: Written, k: nat)
    requires IsHvcC(data) && data[22] == count && LegacyWalk(count, 0, data[23..]) == w && k == data[21] % 4 + 1
    ensures LegacyExtradata(Some(data)) == ExtradataWrite(w, Some(k))
  {
  }

  /** Arrays that hold only VPS, SPS and PPS units. */
  predicate OnlyParameterSets(arrays: seq<Hevc.HvcArray>)
  {
    forall i :: 0 <= i < |arrays| ==> Hevc.IsParameterSetType(arrays[i].header % 0x40)
  }

  lemma {:induction false} CopiedAreAll(arrays: seq<Hevc.HvcArray>)
    requires OnlyParameterSets(arrays)
    ensures Hevc.CopiedUnits(arrays) == AllUnits(arrays)
  {
    if arrays != [] {
      assert OnlyParameterSets(arrays[1..]) by {
        forall i | 0 <= i < |arrays[1..]| ensures Hevc.IsParameterSetType(arrays[1..][i].header % 0x40) {
          assert arrays[1..][i] == arrays[i + 1];
        }
      }
      assert Hevc.IsParameterSetType(arrays[0].header % 0x40);
      CopiedAreAll(arrays[1..]);
    }
  }

  /**
   * On a version-1 record holding only VPS, SPS and PPS arrays, the legacy
   * provider writes the same bytes as the newer HEVCConfigParser produces.
   */
  lemma LegacyMatchesConfigParser(fixed: seq<Byte>, arrays: seq<Hevc.HvcArray>, rest: seq<Byte>)
    requires |fixed| == 22 && fixed[0] == 1 && |arrays| < 0x100 && Hevc.ArraysFit(arrays) && OnlyParameterSets(arrays)
    ensures var data := Hevc.EncodeHvcRecord(fixed, arrays) + rest;
            Hevc.ParseHvcConfig(data).Ok? && LegacyExtradata(Some(data)).w.hr == SOk
            && LegacyExtradata(Some(data)).w.bytes == Hevc.ParseHvcConfig(data).value.0
  {
    Hevc.ParseHvcConfigRoundTrip(fixed, arrays, rest);
    LegacyExtradataOfRecord(fixed, arrays, rest);
    CopiedAreAll(arrays);
  }

  /**
   * NAL units behind 4-byte lengths are written behind start codes, when
   * the last one is not empty (the loop stops once 4 bytes or fewer remain,
   * so an empty last unit is never written).
   */
  lemma {:induction false} LegacyPlainRoundTrip(units: seq<seq<Byte>>)
    requires H264.UnitsFit(4, units) && (units == [] || units[|units| - 1] != [])
    ensures LegacyPlain(H264.EncodeUnits(4, units)) == H264Avc.Written(SOk, H264.FrameUnits(units))
  {
    if units != [] {
      var u, tail := units[0], units[1..];
      assert H264.UnitsFit(4, tail) by {
        forall i | 0 <= i < |tail| ensures |tail[i]| < Pow2(8 * 4) {
          assert tail[i] == units[i + 1];
        }
      }
      var after := H264.EncodeUnits(4, tail);
      var data := H264.EncodeUnits(4, units);
      assert data == ToBigEndian(|u|, 4) + u + after;
      if tail != [] {
        assert tail[|tail| - 1] == units[|units| - 1];
        assert after == ToBigEndian(|tail[0]|, 4) + tail[0] + H264.EncodeUnits(4, tail[1..]);
        assert |after| >= 4;
      } else {
        assert units[|units| - 1] == u;
      }
      assert |data| == 4 + |u| + |after|;
      assert |u| < Pow2(32) by {
        assert |units[0]| < Pow2(8 * 4);
      }
      PlainUnitOf(u, after, data);
      LegacyPlainRoundTrip(tail);
      H264Avc.PrependTwice(START_CODE + u, H264.FrameUnits(tail), H264Avc.Written(SOk, []));
      assert H264.FrameUnits(tail) + [] == H264.FrameUnits(tail);
    }
  }

  /** A unit behind its 4-byte length, with more than 4 bytes in all, is written behind a start code. */
  lemma PlainUnitOf(u: seq<Byte>, after: seq<Byte>, data: seq<Byte>)
    requires |u| < Pow2(32) && data == ToBigEndian(|u|, 4) + u + after && |data| > 4
    ensures LegacyPlain(data) == H264Avc.Prepend(START_CODE + u, LegacyPlain(after))
  {
    PrefixLength(u, after, data);
    assert data[4..4 + |u|] == u && data[4 + |u|..] == after;
  }

  /** The 4-byte prefix reads back as the unit's length. */
  lemma PrefixLength(u: seq<Byte>, after: seq<Byte>, data: seq<Byte>)
    requires |u| < Pow2(32) && data == ToBigEndian(|u|, 4) + u + after
    ensures ReadNalLength(data, 0, 4) % UINT32_MODULUS == |u|
  {
    BigEndianOfToBigEndian(|u|, 4);
    ReadNalLengthIsBigEndian(data, 0, 4);
    PrefixBytes(ToBigEndian(|u|, 4), u, after);
  }

  lemma PrefixBytes(prefix: seq<Byte>, u: seq<Byte>, after: seq<Byte>)
    requires |prefix| == 4
    ensures (prefix + u + after)[0..4] == prefix
  {
    assert (prefix + u + after)[0..4] == prefix;
  }

  /**
   * Extradata made of NAL units behind 4-byte lengths, whose first unit is
   * shorter than 512 bytes so that its length starts 00 00 00 or 00 00 01,
   * sets the length size to 4 and is written behind start codes.
   */
  lemma LegacyExtradataOfUnits(units: seq<seq<Byte>>)
    requires units != [] && |units[0]| < 0x200 && H264.UnitsFit(4, units) && units[|units| - 1] != []
    ensures LegacyExtradata(Some(H264.EncodeUnits(4, units)))
              == ExtradataWrite(H264Avc.Written(SOk, H264.FrameUnits(units)), Some(4))
  {
    var x := |units[0]|;
    var data := H264.EncodeUnits(4, units);
    var prefix := ToBigEndian(x, 4);
    assert data == prefix + units[0] + H264.EncodeUnits(4, units[1..]);
    assert prefix == ToBigEndian(x / 256, 3) + [x % 256];
    assert ToBigEndian(x / 256, 3) == ToBigEndian(x / 256 / 256, 2) + [x / 256 % 256];
    assert ToBigEndian(x / 256 / 256, 2) == [0, 0];
    assert x / 256 % 256 <= 1;
    assert data[0] == 0 && data[1] == 0 && data[2] <= 1;
    LegacyPlainRoundTrip(units);
  }

  // ---------------------------------------------------------------------
  // WriteAVPacketToStream

  /** The two fields the provider keeps between packets. */
  datatype LegacyState = LegacyState(sentExtradata: bool, nalLenSize: nat)

  /** The state after one call, and what the call wrote. */
  datatype Step = Step(state: LegacyState, out: Written)

  /** The length size GetSPSAndPPSBuffer leaves behind. */
  function NewLenSize(e: ExtradataWrite, k: nat): nat
  {
    if e.nalLenSize.Some? then e.nalLenSize.value else k
  }

  /**
   * WriteAVPacketToStream: on the first call the extradata is written and
   * the flag is set, whether or not that succeeds; the packet itself is
   * written only when nothing has failed.
   */
  function PacketWrite(st: LegacyState, extradata: Option<seq<Byte>>, pkt: seq<Byte>): Step
  {
    if st.sentExtradata then Step(st, LegacyNalPacket(pkt, st.nalLenSize))
    else
      var e := LegacyExtradata(extradata);
      var st' := LegacyState(true, NewLenSize(e, st.nalLenSize));
      if e.w.hr == SOk then Step(st', H264Avc.Prepend(e.w.bytes, LegacyNalPacket(pkt, st'.nalLenSize)))
      else Step(st', e.w)
  }

  /** What successive calls write for a run of packets. */
  function StreamWrite(st: LegacyState, extradata: Option<seq<Byte>>, pkts: seq<seq<Byte>>): seq<Written>
    decreases |pkts|
  {
    if pkts == [] then []
    else
      var s := PacketWrite(st, extradata, pkts[0]);
      [s.out] + StreamWrite(s.state, extradata, pkts[1..])
  }

  /** Once the extradata has been sent, every packet is written on its own. */
  lemma {:induction false} StreamAfterExtradata(k: nat, extradata: Option<seq<Byte>>, pkts: seq<seq<Byte>>)
    ensures |StreamWrite(LegacyState(true, k), extradata, pkts)| == |pkts|
    ensures forall i :: 0 <= i < |pkts| ==> StreamWrite(LegacyState(true, k), extradata, pkts)[i] == LegacyNalPacket(pkts[i], k)
  {
    if pkts != [] {
      StreamAfterExtradata(k, extradata, pkts[1..]);
    }
  }

  /**
   * The extradata is written exactly once, in front of the first packet
   * (or instead of it, when it fails); every later packet is written with
   * the length size the extradata set.
   */
  lemma ExtradataSentOnce(st: LegacyState, extradata: Option<seq<Byte>>, pkts: seq<seq<Byte>>)
    requires !st.sentExtradata && pkts != []
    ensures var e := LegacyExtradata(extradata);
            var k := NewLenSize(e, st.nalLenSize);
            var outs := StreamWrite(st, extradata, pkts);
            |outs| == |pkts|
            && outs[0] == (if e.w.hr == SOk then H264Avc.Prepend(e.w.bytes, LegacyNalPacket(pkts[0], k)) else e.w)
            && forall i :: 1 <= i < |pkts| ==> outs[i] == LegacyNalPacket(pkts[i], k)
  {
    var k := NewLenSize(LegacyExtradata(extradata), st.nalLenSize);
    StreamAfterExtradata(k, extradata, pkts[1..]);
  }

  // ---------------------------------------------------------------------
  // The provider

  /**
   * The legacy HEVC provider. The header declaring m_bHasSentExtradata and
   * m_nalLenSize is not part of this model: the flag starts clear, and the
   * length size in force before any extradata was read is a constructor
   * argument.
   */
  class LegacyHevcSampleProvider {
    const extradata: Option<seq<Byte>>
    var hasSentExtradata: bool
    var nalLenSize: nat

    function State(): LegacyState
      reads this
    {
      LegacyState(hasSentExtradata, nalLenSize)
    }

    constructor (extradata: Option<seq<Byte>>, nalLenSize: nat)
      ensures this.extradata == extradata && State() == LegacyState(false, nalLenSize)
    {
      this.extradata := extradata;
      hasSentExtradata := false;
      this.nalLenSize := nalLenSize;
    }

    /** WriteAVPacketToStream: the extradata once, then the packet unless something failed. */
    method WriteAvPacketToStream(packet: seq<Byte>) returns (hr: HResult, written: seq<Byte>)
      requires |packet| <= H264Avc.INT32_MAX
      modifies this
      ensures PacketWrite(old(State()), extradata, packet) == Step(State(), H264Avc.Written(hr, written))
    {
      hr, written := SOk, [];
      if !hasSentExtradata {
        hr, written := GetSpsAndPpsBuffer();
        hasSentExtradata := true;
      }
      if hr == SOk {
        var packetHr, packetWritten := WriteNalPacket(packet);
        hr, written := packetHr, written + packetWritten;
      }
    }

    /** GetSPSAndPPSBuffer: writes the parameter sets of the extradata and sets the length size. */
    method GetSpsAndPpsBuffer() returns (hr: HResult, written: seq<Byte>)
      modifies this
      ensures H264Avc.Written(hr, written) == LegacyExtradata(extradata).w
      ensures nalLenSize == NewLenSize(LegacyExtradata(extradata), old(nalLenSize))
      ensures hasSentExtradata == old(hasSentExtradata)
    {
      if extradata.None? || |extradata.value| < 4 {
        return EFail, [];
      }
      var d := extradata.value;
      if |d| > 22 && (d[0] != 0 || d[1] != 0 || d[2] > 1) {
        nalLenSize := d[21] % 4 + 1;
        hr, written := WriteHvcArrays(d, d[22], 23);
      } else {
        nalLenSize := 4;
        hr, written := WritePlainUnits(d);
      }
    }

    /** WriteNALPacket with the length size in force. */
    method WriteNalPacket(packet: seq<Byte>) returns (hr: HResult, written: seq<Byte>)
      requires |packet| <= H264Avc.INT32_MAX
      ensures H264Avc.Written(hr, written) == LegacyNalPacket(packet, nalLenSize)
    {
      var k := nalLenSize;
      written := [];
      var index: nat := 0;
      ghost var goal := LegacyNalPacket(packet, k);
      while true
        invariant goal == H264Avc.Prepend(written, LegacyUnitsFrom(packet, index, k))
        decreases |packet| - index
      {
        if |packet| < index + k {
          assert written + [] == written;
          return EFail, written;
        }
        var size := ReadNalLength(packet, index, k) % UINT32_MODULUS;
        var start := index + k;
        ghost var before := written;
        written := written + START_CODE;
        if |packet| < (start + size) % UINT32_MODULUS || UINT32_MAX - start < size {
          LegacyUnitsOverrun(packet, index, k, size);
          return EFail, written;
        }
        var next := start + size;
        ghost var unit := START_CODE + packet[start..next];
        written := written + packet[start..next];
        assert written == before + unit;
        LegacyUnitsStep(packet, index, k, size, next, unit);
        if next >= |packet| {
          return SOk, written;
        }
        PrependStep(goal, before, unit, LegacyUnitsFrom(packet, next, k));
        index := next;
      }
    }
  }

  /** The hvcC walk: numArrays arrays from pos0. */
  method WriteHvcArrays(d: seq<Byte>, numArrays: nat, pos0: nat) returns (hr: HResult, written: seq<Byte>)
    requires pos0 <= |d|
    ensures H264Avc.Written(hr, written) == LegacyWalk(numArrays, 0, d[pos0..])
  {
    written := [];
    var pos: nat := pos0;
    var i: nat := 0;
    ghost var goal := LegacyWalk(numArrays, 0, d[pos0..]);
    ghost var left: nat := numArrays;
    while i < numArrays
      invariant i <= numArrays && left == numArrays - i && pos <= |d|
      invariant goal == H264Avc.Prepend(written, LegacyWalk(left, 0, d[pos..]))
    {
      var cnt := ReadNalLength(HeaderBytes(d[pos..]), 1, 2);
      var after := if |d| < pos + 3 then |d| else pos + 3;
      ghost var left' := left - 1;
      ArrayHeaderStep(d, left, left', pos, after, cnt);
      var unitsHr, unitsWritten, pos' := WriteHvcUnits(d, left', cnt, after);
      if unitsHr != SOk {
        return unitsHr, written + unitsWritten;
      }
      PrependStep(goal, written, unitsWritten, LegacyWalk(left', 0, d[pos'..]));
      written, pos, i, left := written + unitsWritten, pos', i + 1, left';
    }
    assert written + [] == written;
    hr := SOk;
  }

  /** An array header read at pos: the walk goes on with its units. */
  lemma ArrayHeaderStep(d: seq<Byte>, left: nat, left': nat, pos: nat, after: nat, cnt: int)
    requires left > 0 && left' == left - 1 && pos <= |d| && cnt == ReadNalLength(HeaderBytes(d[pos..]), 1, 2)
    requires after == if |d| < pos + 3 then |d| else pos + 3
    ensures cnt >= 0 && LegacyWalk(left, 0, d[pos..]) == LegacyWalk(left', cnt, d[after..])
  {
    if |d| < pos + 3 {
      assert d[after..] == [];
    } else {
      assert d[pos..][3..] == d[after..];
    }
  }

  /** The units of one array: cnt units from pos0. */
  method WriteHvcUnits(d: seq<Byte>, ghost arrays: nat, cnt: nat, pos0: nat) returns (hr: HResult, written: seq<Byte>, pos: nat)
    requires pos0 <= |d|
    ensures pos <= |d|
    ensures hr == SOk ==> LegacyWalk(arrays, cnt, d[pos0..]) == H264Avc.Prepend(written, LegacyWalk(arrays, 0, d[pos..]))
    ensures hr != SOk ==> hr == EFail && LegacyWalk(arrays, cnt, d[pos0..]) == H264Avc.Written(EFail, written)
  {
    written, pos := [], pos0;
    var j: nat := 0;
    ghost var left: nat := cnt;
    while j < cnt
      invariant j <= cnt && left == cnt - j && pos <= |d|
      invariant LegacyWalk(arrays, cnt, d[pos0..]) == H264Avc.Prepend(written, LegacyWalk(arrays, left, d[pos..]))
    {
      if |d| < pos + 2 {
        assert written + [] == written;
        return EFail, written, pos;
      }
      var nalsize := ReadNalLength(d, pos, 2);
      var start := pos + 2;
      if |d| - start < nalsize {
        UnitRefused(d, arrays, left, pos, nalsize);
        assert written + [] == written;
        return EFail, written, start;
      }
      var next := start + nalsize;
      var unit := START_CODE + d[start..next];
      ghost var left' := left - 1;
      UnitStep(d, arrays, left, left', pos, nalsize, next, unit);
      PrependStep(LegacyWalk(arrays, cnt, d[pos0..]), written, unit, LegacyWalk(arrays, left', d[next..]));
      written, pos, j, left := written + unit, next, j + 1, left';
    }
    hr := SOk;
  }

  /** A unit length read at pos that fits. */
  lemma UnitStep(d: seq<Byte>, arrays: nat, left: nat, left': nat, pos: nat, n: int, next: nat, unit: seq<Byte>)
    requires left > 0 && left' == left - 1 && pos + 2 <= |d| && n == ReadNalLength(d, pos, 2) && next == pos + 2 + n <= |d|
    requires unit == START_CODE + d[pos + 2..next]
    ensures LegacyWalk(arrays, left, d[pos..]) == H264Avc.Prepend(unit, LegacyWalk(arrays, left', d[next..]))
  {
    var data := d[pos..];
    assert data[0] == d[pos] && data[1] == d[pos + 1];
    assert data[2..2 + n] == d[pos + 2..next] && data[2 + n..] == d[next..];
  }

  /** A unit length read at pos that is more than what remains. */
  lemma UnitRefused(d: seq<Byte>, arrays: nat, left: nat, pos: nat, n: int)
    requires left > 0 && pos + 2 <= |d| && n == ReadNalLength(d, pos, 2) && n > |d| - (pos + 2)
    ensures LegacyWalk(arrays, left, d[pos..]) == H264Avc.Written(EFail, [])
  {
    var data := d[pos..];
    assert data[0] == d[pos] && data[1] == d[pos + 1];
  }

  /** The loop over extradata made of NAL units behind 4-byte lengths. */
  method WritePlainUnits(d: seq<Byte>) returns (hr: HResult, written: seq<Byte>)
    ensures H264Avc.Written(hr, written) == LegacyPlain(d)
  {
    written := [];
    var pos: nat := 0;
    while pos + 4 < |d|
      invariant pos <= |d|
      invariant LegacyPlain(d) == H264Avc.Prepend(written, LegacyPlain(d[pos..]))
      decreases |d| - pos
    {
      var nalsize := ReadNalLength(d, pos, 4) % UINT32_MODULUS;
      var start := pos + 4;
      if |d| - start < nalsize {
        PlainRefused(d, pos, nalsize);
        assert written + [] == written;
        return EFail, written;
      }
      var next := start + nalsize;
      var unit := START_CODE + d[start..next];
      PlainStep(d, pos, nalsize, next, unit);
      PrependStep(LegacyPlain(d), written, unit, LegacyPlain(d[next..]));
      written, pos := written + unit, next;
    }
    assert written + [] == written;
    hr := SOk;
  }

  /** Output written so far, followed by one more unit. */
  lemma PrependStep(goal: Written, written: seq<Byte>, unit: seq<Byte>, rest: Written)
    requires goal == H264Avc.Prepend(written, H264Avc.Prepend(unit, rest))
    ensures goal == H264Avc.Prepend(written + unit, rest)
  {
    H264Avc.PrependTwice(written, unit, rest);
  }

  /** A unit length read at pos that fits. */
  lemma PlainStep(d: seq<Byte>, pos: nat, n: int, next: nat, unit: seq<Byte>)
    requires pos + 4 < |d| && n == ReadNalLength(d, pos, 4) % UINT32_MODULUS && next == pos + 4 + n <= |d|
    requires unit == START_CODE + d[pos + 4..next]
    ensures LegacyPlain(d[pos..]) == H264Avc.Prepend(unit, LegacyPlain(d[next..]))
  {
    var data := d[pos..];
    assert data[0] == d[pos] && data[1] == d[pos + 1] && data[2] == d[pos + 2] && data[3] == d[pos + 3];
    assert data[4..4 + n] == d[pos + 4..next] && data[4 + n..] == d[next..];
  }

  /** A unit length read at pos that is more than what remains. */
  lemma PlainRefused(d: seq<Byte>, pos: nat, n: int)
    requires pos + 4 < |d| && n == ReadNalLength(d, pos, 4) % UINT32_MODULUS && n > |d| - (pos + 4)
    ensures LegacyPlain(d[pos..]) == H264Avc.Written(EFail, [])
  {
    var data := d[pos..];
    assert data[0] == d[pos] && data[1] == d[pos + 1] && data[2] == d[pos + 2] && data[3] == d[pos + 3];
  }
}
