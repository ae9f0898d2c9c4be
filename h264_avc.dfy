// H264AVCSampleProvider: the older H.264 path for AVC-format streams. Each
// sample is written to a data writer as an Annex B byte stream: on a key
// frame first the SPS and PPS taken from the stream's extradata, then every
// NAL unit of the packet with its 4-byte length replaced by a start code.
//
// The data writer is modelled by the bytes a call writes to it. A call that
// fails part way leaves what it already wrote in the writer, so the model
// returns those bytes together with the HRESULT.

module H264Avc {
  import opened Common
  import H264

  /** What a call wrote to the data writer, and the HRESULT it returned. */
  datatype Written = Written(hr: HResult, bytes: seq<Byte>)

  /** Bytes written before a call, in front of what the call writes. */
  function Prepend(bytes: seq<Byte>, w: Written): Written
  {
    Written(w.hr, bytes + w.bytes)
  }

  /** The packet size of an AVPacket is an `int`. */
  const INT32_MAX: int := 0x7FFF_FFFF

  // ---------------------------------------------------------------------
  // WriteNALPacket

  /**
   * WriteNALPacket's do-while loop from index: at least 4 bytes must be
   * left for the big-endian length, then the unit must fit in the packet,
   * checked in 32-bit arithmetic together with an explicit overflow test.
   * Each unit is written behind a start code; the loop goes on while bytes
   * remain.
   */
  function NalUnitsFrom(pkt: seq<Byte>, index: nat): Written
    decreases |pkt| - index
  {
    if |pkt| < index + 4 then Written(EFail, [])
    else
      var size := H264.ReadNaluLength(4, pkt[index..]).value;
      var start := index + 4;
      if |pkt| < (start + size) % UINT32_MODULUS || UINT32_MAX - start < size then Written(EFail, [])
      else
        var unit := START_CODE + pkt[start..start + size];
        if start + size < |pkt| then Prepend(unit, NalUnitsFrom(pkt, start + size))
        else Written(SOk, unit)
  }

  /** What WriteNALPacket writes for a whole packet. */
  function NalPacket(pkt: seq<Byte>): Written
  {
    NalUnitsFrom(pkt, 0)
  }

  /**
   * The bound check of WriteNALPacket: the wrapped sum compared with the
   * packet size, or the sum overflowing, is exactly the unit running past
   * the end of the packet.
   */
  lemma OverrunCheck(start: nat, size: nat, total: nat)
    requires start <= total <= UINT32_MAX
    ensures (total < (start + size) % UINT32_MODULUS || UINT32_MAX - start < size) <==> total < start + size
  {
    if start + size <= UINT32_MAX {
      assert (start + size) % UINT32_MODULUS == start + size;
    }
  }

  /**
   * WriteNALPacket frames the units of a non-empty packet exactly as
   * H264SampleProvider's TransformSample frames a sample with 4-byte
   * lengths and no parameter sets; the loop over an empty packet fails,
   * because its body runs once before the size test.
   */
  lemma {:induction false} NalUnitsAreFrames(pkt: seq<Byte>, index: nat)
    requires index < |pkt| <= UINT32_MAX
    ensures Agree(NalUnitsFrom(pkt, index), H264.Frames(4, [], [], false, pkt[index..], false))
    decreases |pkt| - index
  {
    var data := pkt[index..];
    if |pkt| < index + 4 {
      assert H264.ReadNaluLength(4, data).Err?;
    } else {
      var size := H264.ReadNaluLength(4, data).value;
      var next := index + 4 + size;
      if next > |pkt| {
        UnitOverruns(pkt, index, size, next);
      } else {
        var unit := START_CODE + pkt[index + 4..next];
        var rest := H264.Frames(4, [], [], false, pkt[next..], false);
        NalUnitsStep(pkt, index, size, next);
        FramesStepAt(pkt, index, size, next);
        if next < |pkt| {
          NalUnitsAreFrames(pkt, next);
          SameOutput(unit, [4 + size], NalUnitsFrom(pkt, next), rest);
        } else {
          LastUnit(pkt, unit, next, [4 + size]);
        }
      }
    }
  }

  /** Both loops fail, or both succeed having written the same bytes. */
  predicate Agree(w: Written, f: Result<H264.Framing>)
  {
    (w.hr == SOk <==> f.Ok?) && (f.Ok? ==> w.bytes == f.value.bytes)
  }

  /** A unit running past the end fails both loops. */
  lemma UnitOverruns(pkt: seq<Byte>, index: nat, size: nat, next: nat)
    requires index + 4 <= |pkt| <= UINT32_MAX && H264.ReadNaluLength(4, pkt[index..]) == Ok(size) && next == index + 4 + size > |pkt|
    ensures NalUnitsFrom(pkt, index).hr == EFail && H264.Frames(4, [], [], false, pkt[index..], false).Err?
  {
    OverrunCheck(index + 4, size, |pkt|);
  }

  /** The framing loop over the unit at index, seen from the whole packet. */
  lemma FramesStepAt(pkt: seq<Byte>, index: nat, size: nat, next: nat)
    requires index + 4 <= |pkt| && H264.ReadNaluLength(4, pkt[index..]) == Ok(size) && next == index + 4 + size <= |pkt|
    ensures H264.Frames(4, [], [], false, pkt[index..], false)
              == H264.PrependFraming(START_CODE + pkt[index + 4..next], [4 + size], H264.Frames(4, [], [], false, pkt[next..], false))
  {
    H264.FramesStepPlain(4, [], [], false, pkt[index..], size);
    SliceOfSlice(pkt, index, size, next);
  }

  /** The last unit ends both loops successfully. */
  lemma LastUnit(pkt: seq<Byte>, unit: seq<Byte>, next: nat, lengths: seq<nat>)
    requires next == |pkt|
    ensures Agree(Written(SOk, unit), H264.PrependFraming(unit, lengths, H264.Frames(4, [], [], false, pkt[next..], false)))
  {
    assert pkt[next..] == [];
    assert unit + [] == unit;
  }

  /** Agreement of the two outputs survives putting the same unit in front of both. */
  lemma SameOutput(unit: seq<Byte>, lengths: seq<nat>, w: Written, f: Result<H264.Framing>)
    requires Agree(w, f)
    ensures Agree(Prepend(unit, w), H264.PrependFraming(unit, lengths, f))
  {
  }

  /** One pass of WriteNALPacket's loop over a unit that fits. */
  lemma NalUnitsStep(pkt: seq<Byte>, index: nat, size: nat, next: nat)
    requires index + 4 <= |pkt| <= UINT32_MAX && H264.ReadNaluLength(4, pkt[index..]) == Ok(size) && next == index + 4 + size <= |pkt|
    ensures NalUnitsFrom(pkt, index)
              == if next < |pkt| then Prepend(START_CODE + pkt[index + 4..next], NalUnitsFrom(pkt, next))
                 else Written(SOk, START_CODE + pkt[index + 4..next])
  {
    OverrunCheck(index + 4, size, |pkt|);
  }

  /** The unit and the rest of the packet, seen from the unit's length prefix. */
  lemma SliceOfSlice(pkt: seq<Byte>, index: nat, size: nat, next: nat)
    requires next == index + 4 + size <= |pkt|
    ensures pkt[index..][4..4 + size] == pkt[index + 4..next] && pkt[index..][4 + size..] == pkt[next..]
  {
  }

  /** An empty packet fails, writing nothing. */
  lemma NalPacketEmpty()
    ensures NalPacket([]) == Written(EFail, [])
  {
  }

  /**
   * A packet of units behind their 4-byte lengths is written as the same
   * units behind start codes.
   */
  lemma NalPacketRoundTrip(units: seq<seq<Byte>>)
    requires units != [] && H264.UnitsFit(4, units) && |H264.EncodeUnits(4, units)| <= INT32_MAX
    ensures NalPacket(H264.EncodeUnits(4, units)) == Written(SOk, H264.FrameUnits(units))
  {
    var pkt := H264.EncodeUnits(4, units);
    assert |pkt| > 0 by {
      assert pkt == ToBigEndian(|units[0]|, 4) + units[0] + H264.EncodeUnits(4, units[1..]);
    }
    assert pkt[0..] == pkt;
    NalUnitsAreFrames(pkt, 0);
    H264.FramesRoundTrip(4, [], [], false, units);
  }

  /**
   * What a successful WriteNALPacket writes is the packet itself with every
   * 4-byte length overwritten by a start code: the in-place rewriting of
   * H264SampleProvider's TransformSample. In particular it is as long as
   * the packet.
   */
  lemma NalPacketIsStamped(pkt: seq<Byte>)
    requires |pkt| <= INT32_MAX && NalPacket(pkt).hr == SOk
    ensures H264.StampFrom(4, pkt, 0).Ok? && NalPacket(pkt).bytes == H264.StampFrom(4, pkt, 0).value.packet
    ensures |NalPacket(pkt).bytes| == |pkt|
  {
    assert pkt != [];
    assert pkt[0..] == pkt && [] + pkt == pkt;
    NalUnitsAreFrames(pkt, 0);
    H264.InPlaceMatchesBuffer([], [], false, [], pkt);
    H264.FramesConsumeSample(4, [], [], false, pkt);
  }

  /** Two writes in front of a third are their concatenation in front of it. */
  lemma PrependTwice(a: seq<Byte>, b: seq<Byte>, w: Written)
    ensures Prepend(a, Prepend(b, w)) == Prepend(a + b, w)
  {
    assert a + (b + w.bytes) == a + b + w.bytes;
  }

  // ---------------------------------------------------------------------
  // GetSPSAndPPSBuffer

  /**
   * The extradata test of GetSPSAndPPSBuffer as written: the data is
   * refused only when the pointer is null AND fewer than 8 bytes are
   * declared.
   */
  predicate ExtradataRefusedAsWritten(isNull: bool, size: int)
  {
    isNull && size < 8
  }

  /** The test as evidently intended: a null pointer or fewer than 8 bytes. */
  predicate ExtradataRefused(isNull: bool, size: int)
  {
    isNull || size < 8
  }

  /**
   * As written, a 3-byte extradata block passes the test and the SPS length
   * is then read from its byte 7, past its end; so does a null pointer with
   * a declared size of 8, which is then dereferenced.
   */
  lemma ExtradataTestAsWrittenAdmits()
    ensures !ExtradataRefusedAsWritten(false, 3) && ExtradataRefused(false, 3)
    ensures !ExtradataRefusedAsWritten(true, 8) && ExtradataRefused(true, 8)
  {
  }

  /**
   * GetSPSAndPPSBuffer with the corrected extradata test: the SPS length
   * is the byte in front of offset 8 and the SPS follows it; three bytes
   * further (the PPS count and the PPS length) the PPS follows its length
   * byte. Each is written behind a start code as soon as it is known to be
   * complete, so a missing PPS leaves the SPS written.
   */
  function SpsPpsBuffer(hasCodecContext: bool, extradata: Option<seq<Byte>>): Written
  {
    if !hasCodecContext then Written(EFail, [])
    else if ExtradataRefused(extradata.None?, if extradata.Some? then |extradata.value| else 0) then Written(EFail, [])
    else
      var d := extradata.value;
      var spsLength: nat := d[7];
      if |d| < 8 + spsLength then Written(EFail, [])
      else
        var sps := START_CODE + d[8..8 + spsLength];
        if |d| < 8 + spsLength + 3 then Written(EFail, sps)
        else
          var ppsLength: nat := d[8 + spsLength + 2];
          if |d| < 8 + spsLength + 3 + ppsLength then Written(EFail, sps)
          else Prepend(sps, Written(SOk, START_CODE + d[8 + spsLength + 3..8 + spsLength + 3 + ppsLength]))
  }

  /**
   * An AVC configuration record (section 5.3.3.1 of ISO/IEC 14496-15) with
   * its first SPS and first PPS: six fixed bytes (the last holding the SPS
   * count), the 16-bit SPS length and the SPS, the PPS count, the 16-bit
   * PPS length and the PPS.
   */
  function AvcRecord(fixed: seq<Byte>, sps: seq<Byte>, ppsCount: Byte, pps: seq<Byte>, rest: seq<Byte>): seq<Byte>
    requires |sps| < 0x1_0000 && |pps| < 0x1_0000
  {
    fixed + H264.Uint16(|sps|) + sps + [ppsCount] + H264.Uint16(|pps|) + pps + rest
  }

  /**
   * For a record whose SPS and PPS are each shorter than 256 bytes, the
   * buffer is the SPS and the PPS, each behind a start code.
   */
  lemma SpsPpsBufferRoundTrip(fixed: seq<Byte>, sps: seq<Byte>, ppsCount: Byte, pps: seq<Byte>, rest: seq<Byte>)
    requires |fixed| == 6 && |sps| < 0x100 && |pps| < 0x100
    ensures SpsPpsBuffer(true, Some(AvcRecord(fixed, sps, ppsCount, pps, rest)))
              == Written(SOk, START_CODE + sps + START_CODE + pps)
  {
    var d := AvcRecord(fixed, sps, ppsCount, pps, rest);
    var s, p := |sps|, |pps|;
    RecordLayout(fixed, H264.Uint16(s), sps, [ppsCount] + H264.Uint16(p), pps, rest);
    assert START_CODE + sps + (START_CODE + pps) == START_CODE + sps + START_CODE + pps;
  }

  /** Where the SPS, its length byte, the PPS and its length byte sit in a record. */
  lemma RecordLayout(fixed: seq<Byte>, spsLen: seq<Byte>, sps: seq<Byte>, mid: seq<Byte>, pps: seq<Byte>, rest: seq<Byte>)
    requires |fixed| == 6 && |spsLen| == 2 && |mid| == 3
    ensures var d := fixed + spsLen + sps + mid + pps + rest;
            var s := |sps|;
            && |d| >= 8 + s + 3 + |pps| && d[7] == spsLen[1] && d[8 + s + 2] == mid[2]
            && d[8..8 + s] == sps && d[8 + s + 3..8 + s + 3 + |pps|] == pps
  {
    var d := fixed + spsLen + sps + mid + pps + rest;
    var s := |sps|;
    assert d[8..8 + s] == sps;
    assert d[8 + s + 3..8 + s + 3 + |pps|] == pps;
  }

  /** A record that ends inside the PPS leaves the SPS written and fails. */
  lemma SpsPpsBufferTruncatedPps(fixed: seq<Byte>, sps: seq<Byte>, ppsCount: Byte, pps: seq<Byte>, cut: nat)
    requires |fixed| == 6 && |sps| < 0x100 && 0 < |pps| < 0x100 && cut < |pps|
    ensures SpsPpsBuffer(true, Some(AvcRecord(fixed, sps, ppsCount, pps, [])[..8 + |sps| + 3 + cut]))
              == Written(EFail, START_CODE + sps)
  {
    var full := AvcRecord(fixed, sps, ppsCount, pps, []);
    var s, p := |sps|, |pps|;
    RecordLayout(fixed, H264.Uint16(s), sps, [ppsCount] + H264.Uint16(p), pps, []);
    var d := full[..8 + s + 3 + cut];
    assert d[7] == full[7] && d[8 + s + 2] == full[8 + s + 2];
    assert d[8..8 + s] == full[8..8 + s];
  }

  // ---------------------------------------------------------------------
  // WriteAVPacketToStream

  /**
   * WriteAVPacketToStream: on a key frame the SPS and PPS first, and the
   * packet's units only if they were written; on any other frame only the
   * packet's units.
   */
  function AvPacketWrite(hasCodecContext: bool, extradata: Option<seq<Byte>>, pkt: seq<Byte>, isKeyFrame: bool): Written
  {
    if isKeyFrame then
      var w := SpsPpsBuffer(hasCodecContext, extradata);
      if w.hr != SOk then w else Prepend(w.bytes, NalPacket(pkt))
    else NalPacket(pkt)
  }

  /** WriteNALPacket returns S_OK or E_FAIL and no other code. */
  lemma {:induction false} NalUnitsResult(pkt: seq<Byte>, index: nat)
    ensures NalUnitsFrom(pkt, index).hr == SOk || NalUnitsFrom(pkt, index).hr == EFail
    decreases |pkt| - index
  {
    if |pkt| >= index + 4 {
      var size := H264.ReadNaluLength(4, pkt[index..]).value;
      var start := index + 4;
      if !(|pkt| < (start + size) % UINT32_MODULUS || UINT32_MAX - start < size) && start + size < |pkt| {
        NalUnitsResult(pkt, start + size);
      }
    }
  }

  /** WriteAVPacketToStream returns S_OK or E_FAIL and no other code. */
  lemma AvPacketWriteResult(hasCodecContext: bool, extradata: Option<seq<Byte>>, pkt: seq<Byte>, isKeyFrame: bool)
    ensures AvPacketWrite(hasCodecContext, extradata, pkt, isKeyFrame).hr == SOk
         || AvPacketWrite(hasCodecContext, extradata, pkt, isKeyFrame).hr == EFail
  {
    NalUnitsResult(pkt, 0);
  }

  /**
   * A sample of units behind 4-byte lengths is written behind start codes,
   * preceded by the SPS and PPS of the record exactly when it is a key frame.
   */
  lemma AvPacketWriteRoundTrip(fixed: seq<Byte>, sps: seq<Byte>, ppsCount: Byte, pps: seq<Byte>, rest: seq<Byte>,
                               units: seq<seq<Byte>>, isKeyFrame: bool)
    requires |fixed| == 6 && |sps| < 0x100 && |pps| < 0x100
    requires units != [] && H264.UnitsFit(4, units) && |H264.EncodeUnits(4, units)| <= INT32_MAX
    ensures AvPacketWrite(true, Some(AvcRecord(fixed, sps, ppsCount, pps, rest)), H264.EncodeUnits(4, units), isKeyFrame)
              == Written(SOk, (if isKeyFrame then START_CODE + sps + START_CODE + pps else []) + H264.FrameUnits(units))
  {
    NalPacketRoundTrip(units);
    SpsPpsBufferRoundTrip(fixed, sps, ppsCount, pps, rest);
    if !isKeyFrame {
      assert [] + H264.FrameUnits(units) == H264.FrameUnits(units);
    }
  }

  /** Without a codec context a key frame writes nothing and fails; other frames are unaffected. */
  lemma AvPacketWriteWithoutContext(extradata: Option<seq<Byte>>, pkt: seq<Byte>, isKeyFrame: bool)
    ensures AvPacketWrite(false, extradata, pkt, isKeyFrame) == if isKeyFrame then Written(EFail, []) else NalPacket(pkt)
  {
  }

  /** H264AVCSampleProvider, with the codec context reduced to whether it is present and its extradata. */
  class H264AvcSampleProvider {
    const hasCodecContext: bool
    const extradata: Option<seq<Byte>>

    constructor (hasCodecContext: bool, extradata: Option<seq<Byte>>)
      ensures this.hasCodecContext == hasCodecContext && this.extradata == extradata
    {
      this.hasCodecContext := hasCodecContext;
      this.extradata := extradata;
    }

    /** WriteNALPacket: the units of the packet, each behind a start code. */
    method WriteNalPacket(packet: seq<Byte>) returns (hr: HResult, written: seq<Byte>)
      requires |packet| <= INT32_MAX
      ensures Written(hr, written) == NalPacket(packet)
    {
      written := [];
      var index: nat := 0;
      while true
        invariant NalPacket(packet) == Prepend(written, NalUnitsFrom(packet, index))
        decreases |packet| - index
      {
        if |packet| < index + 4 {
          assert written + [] == written;
          return EFail, written;
        }
        var size := packet[index] as nat * 0x100_0000 + packet[index + 1] as nat * 0x1_0000
                    + packet[index + 2] as nat * 0x100 + packet[index + 3] as nat;
        assert H264.ReadNaluLength(4, packet[index..]) == Ok(size);
        ghost var index0 := index;
        index := index + 4;
        if |packet| < (index + size) % UINT32_MODULUS || UINT32_MAX - index < size {
          assert written + [] == written;
          return EFail, written;
        }
        var next := index + size;
        OverrunCheck(index, size, |packet|);
        NalUnitsStep(packet, index0, size, next);
        var unit := START_CODE + packet[index..next];
        if next >= |packet| {
          return SOk, written + unit;
        }
        PrependTwice(written, unit, NalUnitsFrom(packet, next));
        written := written + unit;
        index := next;
      }
    }

    /** GetSPSAndPPSBuffer, with the corrected extradata test. */
    method GetSpsAndPpsBuffer() returns (hr: HResult, written: seq<Byte>)
      ensures Written(hr, written) == SpsPpsBuffer(hasCodecContext, extradata)
    {
      if !hasCodecContext {
        return EFail, [];
      }
      if extradata.None? || |extradata.value| < 8 {
        return EFail, [];
      }
      var d := extradata.value;
      var spsLength: nat := d[7];
      if |d| < 8 + spsLength {
        return EFail, [];
      }
      written := START_CODE + d[8..8 + spsLength];
      if |d| < 8 + spsLength + 3 {
        return EFail, written;
      }
      var ppsLength: nat := d[8 + spsLength + 2];
      if |d| < 8 + spsLength + 3 + ppsLength {
        return EFail, written;
      }
      written := written + (START_CODE + d[8 + spsLength + 3..8 + spsLength + 3 + ppsLength]);
      return SOk, written;
    }

    /** WriteAVPacketToStream: the parameter sets on a key frame, then the packet. */
    method WriteAvPacketToStream(packet: seq<Byte>, isKeyFrame: bool) returns (hr: HResult, written: seq<Byte>)
      requires |packet| <= INT32_MAX
      ensures Written(hr, written) == AvPacketWrite(hasCodecContext, extradata, packet, isKeyFrame)
    {
      hr, written := SOk, [];
      if isKeyFrame {
        hr, written := GetSpsAndPpsBuffer();
      }
      if hr == SOk {
        var more;
        hr, more := WriteNalPacket(packet);
        written := written + more;
      }
      assert !isKeyFrame ==> [] + NalPacket(packet).bytes == NalPacket(packet).bytes;
    }
  }
}
