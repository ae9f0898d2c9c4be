// NAL-unit framing shared by the H.264 and HEVC sample providers.
//
// A NAL unit is located either by a big-endian length prefix (the AVC/HEVC
// configuration-record format of ISO/IEC 14496-15) or by scanning for the
// next Annex B start code (ITU-T H.264 section B.1). NALUSampleProvider
// rewrites every sample into the start-code format the decoder expects,
// prepending the stream's parameter sets on key frames.

module Nalu {
  import opened Common

  /** NALU_TYPE_AUD: the first payload byte the providers treat as an access unit delimiter. */
  const NALU_TYPE_AUD: Byte := 0x1F

  // ---------------------------------------------------------------------
  // GetAVCNaluLength

  /**
   * GetAVCNaluLength as written: the bound check `naluLengthSize +
   * naluLength > dataSize` is evaluated in 32-bit unsigned arithmetic, so a
   * length close to 2^32 wraps around and passes.
   */
  function GetAvcNaluLengthAsWritten(data: seq<Byte>, lengthSize: nat): Result<nat>
  {
    if lengthSize > |data| || !(1 <= lengthSize <= 4) then Err(MfEInvalidFileFormat)
    else
      var n := BigEndianPrefix(data, lengthSize);
      if (lengthSize + n) % UINT32_MODULUS > |data| then Err(MfEInvalidFileFormat) else Ok(n)
  }

  /**
   * GetAVCNaluLength: the big-endian NAL unit length held in the first
   * lengthSize (1 to 4) bytes, provided the prefix and the unit fit in data.
   */
  function GetAvcNaluLength(data: seq<Byte>, lengthSize: nat): (r: Result<nat>)
    ensures r.Ok? <==> 1 <= lengthSize <= 4 && lengthSize <= |data| && lengthSize + BigEndianPrefix(data, lengthSize) <= |data|
    ensures r.Ok? ==> r.value == BigEndianPrefix(data, lengthSize)
    ensures r.Err? ==> r.error == MfEInvalidFileFormat
  {
    if lengthSize > |data| || !(1 <= lengthSize <= 4) then Err(MfEInvalidFileFormat)
    else
      var n := BigEndianPrefix(data, lengthSize);
      if lengthSize + n > |data| then Err(MfEInvalidFileFormat) else Ok(n)
  }

  /** A payload behind its own k-byte length prefix reads back as its length. */
  lemma AvcNaluLengthOfPrefixed(k: nat, payload: seq<Byte>, rest: seq<Byte>)
    requires 1 <= k <= 4 && |payload| < Pow2(8 * k)
    ensures GetAvcNaluLength(ToBigEndian(|payload|, k) + payload + rest, k) == Ok(|payload|)
  {
    BigEndianOfToBigEndian(|payload|, k);
    AvcNaluLengthOfPrefix(ToBigEndian(|payload|, k), payload, rest);
  }

  /** A unit behind a prefix whose big-endian value is its length reads back as that length. */
  lemma AvcNaluLengthOfPrefix(prefix: seq<Byte>, payload: seq<Byte>, rest: seq<Byte>)
    requires 1 <= |prefix| <= 4 && BigEndian(prefix) == |payload|
    ensures GetAvcNaluLength(prefix + payload + rest, |prefix|) == Ok(|payload|)
  {
    var data := prefix + payload + rest;
    assert data[..|prefix|] == prefix;
    BigEndianPrefixIsBigEndian(data, |prefix|);
  }

  /**
   * Four 0xFF bytes announce a unit of 2^32 - 1 bytes in a 4-byte buffer;
   * 4 + (2^32 - 1) wraps to 3, so the check as written lets it through.
   */
  lemma AvcNaluLengthAsWrittenWraps()
    ensures GetAvcNaluLengthAsWritten([0xFF, 0xFF, 0xFF, 0xFF], 4) == Ok(0xFFFF_FFFF)
    ensures GetAvcNaluLength([0xFF, 0xFF, 0xFF, 0xFF], 4) == Err(MfEInvalidFileFormat)
  {
    var d: seq<Byte> := [0xFF, 0xFF, 0xFF, 0xFF];
    assert BigEndianPrefix(d, 1) == 0xFF;
    assert BigEndianPrefix(d, 2) == 0xFFFF;
    assert BigEndianPrefix(d, 3) == 0xFF_FFFF;
    assert BigEndianPrefix(d, 4) == 0xFFFF_FFFF;
  }

  // ---------------------------------------------------------------------
  // GetAnnexBNaluLength

  /** A start code ends at offset j of data. */
  predicate EndsStartCode(data: seq<Byte>, j: nat)
  {
    4 <= j <= |data| && StartCodeAt(data, j - 4)
  }

  /**
   * The scan of GetAnnexBNaluLength from offset i: the first offset in
   * [i, |data|) at which a start code ends, or |data| when there is none.
   */
  function StartCodeEndFrom(data: seq<Byte>, i: nat): nat
    requires 4 <= i
    decreases |data| - i
  {
    if i >= |data| then |data|
    else if EndsStartCode(data, i) then i
    else StartCodeEndFrom(data, i + 1)
  }

  lemma {:induction false} StartCodeEndFromIsFirst(data: seq<Byte>, i: nat)
    requires 4 <= i
    ensures var r := StartCodeEndFrom(data, i);
            && (if i < |data| then i <= r <= |data| else r == |data|)
            && (r < |data| ==> EndsStartCode(data, r))
            && forall j :: i <= j < r ==> !EndsStartCode(data, j)
    decreases |data| - i
  {
    if i < |data| && !EndsStartCode(data, i) {
      StartCodeEndFromIsFirst(data, i + 1);
    }
  }

  /**
   * GetAnnexBNaluLength as written: it refuses data that begins with a start
   * code, although its comment says the data must begin with one, and it
   * returns the offset just past the next start code (as
   * AnnexBNaluLengthPastStartCode does).
   */
  function GetAnnexBNaluLengthAsWritten(data: seq<Byte>): Result<nat>
  {
    if |data| < 4 then Err(MfEInvalidFileFormat)
    else if StartCodeAt(data, 0) then Err(MfEInvalidFileFormat)
    else Ok(StartCodeEndFrom(data, 8))
  }

  /**
   * GetAnnexBNaluLength with the start-code test the right way round and
   * the result its callers step by: the length of the unit at the start of
   * data, start code included, which is the offset where the next start
   * code begins (one that ends at offset 8 or later and before the end of
   * the data), or the size of the data when there is none.
   */
  function AnnexBNaluLength(data: seq<Byte>): (r: Result<nat>)
    ensures r.Ok? ==> 4 <= r.value <= |data|
  {
    if |data| < 4 || !StartCodeAt(data, 0) then Err(MfEInvalidFileFormat)
    else
      StartCodeEndFromIsFirst(data, 8);
      var e := StartCodeEndFrom(data, 8);
      if e < |data| then Ok(e - 4) else Ok(|data|)
  }

  /**
   * What GetAnnexBNaluLength returns, stated without the scan: the unit
   * runs up to the first start code after its own that the scan can see,
   * or to the end of the data.
   */
  lemma AnnexBNaluLengthMeaning(data: seq<Byte>)
    ensures AnnexBNaluLength(data).Ok? <==> StartsWithStartCode(data)
    ensures AnnexBNaluLength(data).Err? ==> AnnexBNaluLength(data).error == MfEInvalidFileFormat
    ensures AnnexBNaluLength(data).Ok? ==>
              var n := AnnexBNaluLength(data).value;
              && 4 <= n <= |data|
              && (n < |data| ==> StartCodeAt(data, n) && n + 4 < |data|)
              && forall j :: 4 <= j < n && j + 4 < |data| ==> !StartCodeAt(data, j)
  {
    if StartsWithStartCode(data) {
      StartCodeEndFromIsFirst(data, 8);
      var n := AnnexBNaluLength(data).value;
      forall j | 4 <= j < n && j + 4 < |data|
        ensures !StartCodeAt(data, j)
      {
        assert !EndsStartCode(data, j + 4);
      }
    }
  }

  /**
   * GetAnnexBNaluLength with the start-code test the right way round but
   * the result as written: the offset just past the next start code.
   */
  function AnnexBNaluLengthPastStartCode(data: seq<Byte>): Result<nat>
  {
    if |data| < 4 || !StartCodeAt(data, 0) then Err(MfEInvalidFileFormat)
    else Ok(StartCodeEndFrom(data, 8))
  }

  /**
   * Two units of 8 bytes: the length as written runs 4 bytes into the
   * second unit, so the next scan begins inside it and is refused, while
   * the corrected length splits the buffer at the second start code.
   */
  lemma AnnexBNaluLengthPastStartCodeSplitsUnit()
    ensures var d: seq<Byte> := [0, 0, 0, 1, 0x40, 1, 2, 3, 0, 0, 0, 1, 0x42, 4, 5, 6];
            && AnnexBNaluLengthPastStartCode(d) == Ok(12)
            && AnnexBNaluLengthPastStartCode(d[12..]) == Err(MfEInvalidFileFormat)
            && AnnexBNaluLength(d) == Ok(8)
            && AnnexBNaluLengths(d, 0) == Ok([8, 8])
  {
    var d: seq<Byte> := [0, 0, 0, 1, 0x40, 1, 2, 3, 0, 0, 0, 1, 0x42, 4, 5, 6];
    assert !EndsStartCode(d, 8) && !EndsStartCode(d, 9) && !EndsStartCode(d, 10) && !EndsStartCode(d, 11);
    assert EndsStartCode(d, 12);
    assert StartCodeEndFrom(d, 8) == 12;
    var e := d[8..];
    assert StartCodeAt(e, 0);
    assert !EndsStartCode(e, 8);
    assert AnnexBNaluLength(e) == Ok(8);
    assert d[16..] == [];
    assert AnnexBNaluLengths(d, 16) == Ok([]);
    assert AnnexBNaluLength(d[8..]) == Ok(8);
    assert [8] + [] == [8] && [8] + [8] == [8, 8];
    assert AnnexBNaluLengths(d, 8) == Ok([8]);
    assert d[0..] == d;
  }

  /** Every buffer that begins with a start code is refused as written, and accepted once corrected. */
  lemma AnnexBNaluLengthAsWrittenRejectsStartCode(data: seq<Byte>)
    requires StartsWithStartCode(data)
    ensures GetAnnexBNaluLengthAsWritten(data) == Err(MfEInvalidFileFormat)
    ensures AnnexBNaluLength(data).Ok?
  {
  }

  /** GetAnnexBNaluLength: the scan loop. */
  method GetAnnexBNaluLength(data: seq<Byte>) returns (r: Result<nat>)
    ensures r == AnnexBNaluLength(data)
  {
    if |data| >= 4 {
      StartCodeAtSlice(data, 0);
    }
    if |data| < 4 || data[..4] != START_CODE {
      return Err(MfEInvalidFileFormat);
    }
    var i := 8;
    while i < |data|
      invariant 8 <= i
      invariant StartCodeEndFrom(data, 8) == StartCodeEndFrom(data, i)
      decreases |data| - i
    {
      StartCodeAtSlice(data, i - 4);
      if data[i - 4..i] == START_CODE {
        return Ok(i - 4);
      }
      i := i + 1;
    }
    return Ok(|data|);
  }

  // ---------------------------------------------------------------------
  // AnnexBParser

  /**
   * The NAL unit lengths GetSpsPpsData records from offset i: each call of
   * GetAnnexBNaluLength on the rest of the data gives the next length.
   */
  function AnnexBNaluLengths(data: seq<Byte>, i: nat): Result<seq<nat>>
    decreases |data| - i
  {
    if i >= |data| then Ok([])
    else match AnnexBNaluLength(data[i..])
      case Err(e) => Err(e)
      case Ok(n) =>
        AnnexBNaluLengthMeaning(data[i..]);
        match AnnexBNaluLengths(data, i + n)
          case Err(e) => Err(e)
          case Ok(rest) => Ok([n] + rest)
  }

  /** Recorded lengths in front of the outcome of the rest of the scan. */
  function PrependLengths(pre: seq<nat>, r: Result<seq<nat>>): Result<seq<nat>>
  {
    match r
    case Err(e) => Err(e)
    case Ok(rest) => Ok(pre + rest)
  }

  /** One unit of GetSpsPpsData's loop. */
  lemma AnnexBNaluLengthsStep(data: seq<Byte>, i: nat, n: nat, lengths: seq<nat>)
    requires i < |data| && AnnexBNaluLength(data[i..]) == Ok(n)
    requires AnnexBNaluLengths(data, 0) == PrependLengths(lengths, AnnexBNaluLengths(data, i))
    ensures 0 < n && i + n <= |data|
    ensures AnnexBNaluLengths(data, 0) == PrependLengths(lengths + [n], AnnexBNaluLengths(data, i + n))
  {
    AnnexBNaluLengthMeaning(data[i..]);
    var rest := AnnexBNaluLengths(data, i + n);
    if rest.Ok? {
      assert lengths + ([n] + rest.value) == (lengths + [n]) + rest.value;
    }
  }

  /** The recorded lengths partition the data from offset i, each at least 4 bytes long. */
  lemma {:induction false} AnnexBNaluLengthsPartition(data: seq<Byte>, i: nat)
    requires i <= |data| && AnnexBNaluLengths(data, i).Ok?
    ensures Sum(AnnexBNaluLengths(data, i).value) == |data| - i
    ensures forall k :: 0 <= k < |AnnexBNaluLengths(data, i).value| ==> AnnexBNaluLengths(data, i).value[k] >= 4
    decreases |data| - i
  {
    if i < |data| {
      var n := AnnexBNaluLength(data[i..]).value;
      AnnexBNaluLengthMeaning(data[i..]);
      AnnexBNaluLengthsPartition(data, i + n);
      var rest := AnnexBNaluLengths(data, i + n).value;
      assert AnnexBNaluLengths(data, i).value == [n] + rest;
      assert ([n] + rest)[1..] == rest;
    }
  }

  /**
   * GetSpsPpsData's scan succeeds from offset i exactly when the data there
   * is used up or begins with a start code: each unit it steps over ends
   * where the next start code begins.
   */
  lemma {:induction false} AnnexBNaluLengthsSucceed(data: seq<Byte>, i: nat)
    requires i <= |data|
    ensures AnnexBNaluLengths(data, i).Ok? <==> i == |data| || StartsWithStartCode(data[i..])
    decreases |data| - i
  {
    if i < |data| && StartsWithStartCode(data[i..]) {
      var n := AnnexBNaluLength(data[i..]).value;
      AnnexBNaluLengthMeaning(data[i..]);
      if i + n < |data| {
        assert StartCodeAt(data[i..], n);
        assert data[i + n..][..4] == data[i..][n..n + 4];
        assert StartsWithStartCode(data[i + n..]);
      }
      AnnexBNaluLengthsSucceed(data, i + n);
    }
  }

  class AnnexBParser {
    const data: seq<Byte>

    constructor (buffer: seq<Byte>)
      requires StartsWithStartCode(buffer)
      ensures data == buffer
    {
      data := buffer;
    }

    /** The constructor's checks: at least 4 bytes, beginning with a start code. */
    static method Create(buffer: seq<Byte>) returns (r: Result<AnnexBParser>)
      ensures r.Err? <==> !StartsWithStartCode(buffer)
      ensures r.Err? ==> r.error == MfEInvalidFileFormat
      ensures r.Ok? ==> fresh(r.value) && r.value.data == buffer
    {
      if |buffer| >= 4 {
        StartCodeAtSlice(buffer, 0);
      }
      if |buffer| < 4 || buffer[..4] != START_CODE {
        return Err(MfEInvalidFileFormat);
      }
      var parser := new AnnexBParser(buffer);
      return Ok(parser);
    }

    /** The data unchanged, with the lengths of its NAL units. */
    method GetSpsPpsData() returns (r: Result<(seq<Byte>, seq<nat>)>)
      ensures AnnexBNaluLengths(data, 0).Err? ==> r == Err(AnnexBNaluLengths(data, 0).error)
      ensures AnnexBNaluLengths(data, 0).Ok? ==> r == Ok((data, AnnexBNaluLengths(data, 0).value))
    {
      var lengths: seq<nat> := [];
      var i: nat := 0;
      assert PrependLengths([], AnnexBNaluLengths(data, 0)) == AnnexBNaluLengths(data, 0) by {
        if AnnexBNaluLengths(data, 0).Ok? {
          assert [] + AnnexBNaluLengths(data, 0).value == AnnexBNaluLengths(data, 0).value;
        }
      }
      while i < |data|
        invariant i <= |data|
        invariant AnnexBNaluLengths(data, 0) == PrependLengths(lengths, AnnexBNaluLengths(data, i))
        decreases |data| - i
      {
        ghost var lengths0 := lengths;
        ghost var i0 := i;
        var found := GetAnnexBNaluLength(data[i..]);
        if found.Err? {
          return Err(found.error);
        }
        var n := found.value;
        AnnexBNaluLengthsStep(data, i, n, lengths);
        lengths := lengths + [n];
        i := i + n;
        assert lengths == lengths0 + [n] && i == i0 + n;
      }
      assert lengths + [] == lengths;
      return Ok((data, lengths));
    }
  }

  // ---------------------------------------------------------------------
  // NALUSampleProvider::TransformSample

  /** The provider's bitstream description, as its fields hold it. */
  datatype NaluFormat = NaluFormat(annexB: bool, lengthSize: nat, spsPps: seq<Byte>, spsPpsLengths: seq<nat>)

  /** A transformed sample: the bytes handed to the decoder and its NAL unit lengths. */
  datatype TransformedSample = TransformedSample(buffer: seq<Byte>, naluLengths: seq<nat>)

  /** Bytes in front of each NAL unit: a start code, or the length prefix. */
  function PrefixLength(f: NaluFormat): nat
  {
    if f.annexB then 4 else f.lengthSize
  }

  /**
   * Whether the sample is written to a new buffer: when the parameter sets
   * are to be prepended, or when length prefixes are not 4 bytes long and so
   * cannot be overwritten by a start code in place.
   */
  predicate WritesBuffer(f: NaluFormat, isKeyFrame: bool)
  {
    (isKeyFrame && f.spsPps != []) || (!f.annexB && f.lengthSize != 4)
  }

  /**
   * The payload length of the NAL unit at the start of data: behind a start
   * code, the unit's length less the start code; behind a length prefix,
   * the length it holds. Prefix and payload lie within data.
   */
  function NaluLength(f: NaluFormat, data: seq<Byte>): (r: Result<nat>)
    ensures r.Ok? ==> PrefixLength(f) + r.value <= |data|
  {
    if f.annexB then
      match AnnexBNaluLength(data)
      case Err(e) => Err(e)
      case Ok(n) => Ok(n - 4)
    else GetAvcNaluLength(data, f.lengthSize)
  }

  /**
   * What the loop produces from offset i on: the start-code framed units
   * (with the parameter sets where they are inserted), the recorded lengths,
   * whether the parameter sets are still to be copied, and the final offset.
   */
  datatype LoopOut = LoopOut(bytes: seq<Byte>, lengths: seq<nat>, copyPending: bool, end: nat)

  /** Output accumulated before offset i, put in front of what the loop produces from i. */
  function Prepend(bytes: seq<Byte>, lengths: seq<nat>, r: Result<LoopOut>): Result<LoopOut>
  {
    match r
    case Err(e) => Err(e)
    case Ok(o) => Ok(LoopOut(bytes + o.bytes, lengths + o.lengths, o.copyPending, o.end))
  }

  lemma PrependPrepend(a: seq<Byte>, b: seq<nat>, c: seq<Byte>, d: seq<nat>, r: Result<LoopOut>)
    ensures Prepend(a, b, Prepend(c, d, r)) == Prepend(a + c, b + d, r)
  {
    if r.Ok? {
      assert a + (c + r.value.bytes) == (a + c) + r.value.bytes;
      assert b + (d + r.value.lengths) == (b + d) + r.value.lengths;
    }
  }

  /**
   * Whether the parameter sets go in front of the unit at offset i: they are
   * still to be copied and the sample's first unit is not an AUD (the test
   * always looks at the first payload byte of the sample).
   */
  predicate InsertsHere(f: NaluFormat, pkt: seq<Byte>, copy: bool, n: nat)
  {
    copy && (n < PrefixLength(f) || PrefixLength(f) >= |pkt| || pkt[PrefixLength(f)] != NALU_TYPE_AUD)
  }

  /**
   * The loop of TransformSample from offset i: each unit's payload framed
   * by a start code (unless the packet is kept as it is), with its length
   * recorded start code included.
   */
  function TransformFrom(f: NaluFormat, pkt: seq<Byte>, write: bool, i: nat, copy: bool): Result<LoopOut>
    decreases if i <= |pkt| then |pkt| - i else 0
  {
    var p := PrefixLength(f);
    if i + p > |pkt| then Ok(LoopOut([], [], copy, i))
    else match NaluLength(f, pkt[i..])
      case Err(e) => Err(e)
      case Ok(n) =>
        var insert := InsertsHere(f, pkt, copy, n);
        var frame := if write || !f.annexB then START_CODE + pkt[i + p..i + p + n] else [];
        Prepend((if insert then f.spsPps else []) + frame,
                (if insert then f.spsPpsLengths else []) + [4 + n],
                TransformFrom(f, pkt, write, i + p + n, copy && !insert))
  }

  /**
   * TransformSample's result: on a new buffer, the framed units with the
   * parameter sets (at the end when no unit took them); in place, the
   * packet with every length prefix replaced by a start code; in Annex B
   * mode without a new buffer, the packet itself.
   */
  function TransformSpec(f: NaluFormat, pkt: seq<Byte>, isKeyFrame: bool): Result<TransformedSample>
  {
    var write := WritesBuffer(f, isKeyFrame);
    match TransformFrom(f, pkt, write, 0, isKeyFrame && f.spsPps != [])
    case Err(e) => Err(e)
    case Ok(o) =>
      if write then
        if o.copyPending then Ok(TransformedSample(o.bytes + f.spsPps, o.lengths + f.spsPpsLengths))
        else Ok(TransformedSample(o.bytes, o.lengths))
      else if f.annexB then Ok(TransformedSample(pkt, o.lengths))
      else if o.end <= |pkt| then Ok(TransformedSample(o.bytes + pkt[o.end..], o.lengths))
      else Ok(TransformedSample(o.bytes, o.lengths))
  }

  /** One unit of the loop. */
  lemma TransformFromStep(f: NaluFormat, pkt: seq<Byte>, write: bool, i: nat, copy: bool, n: nat)
    requires i + PrefixLength(f) <= |pkt| && NaluLength(f, pkt[i..]) == Ok(n)
    ensures var p := PrefixLength(f);
            var insert := InsertsHere(f, pkt, copy, n);
            TransformFrom(f, pkt, write, i, copy) ==
              Prepend((if insert then f.spsPps else []) + (if write || !f.annexB then START_CODE + pkt[i + p..i + p + n] else []),
                      (if insert then f.spsPpsLengths else []) + [4 + n],
                      TransformFrom(f, pkt, write, i + p + n, copy && !insert))
  {
  }

  /**
   * One unit of the loop: the outcome of the whole loop, seen as the output
   * accumulated so far in front of the loop from offset i, is the same with
   * the unit at i moved into the accumulated output.
   */
  lemma TransformFromAdvance(f: NaluFormat, pkt: seq<Byte>, write: bool, i: nat, copy: bool, n: nat,
                             framed: seq<Byte>, lengths: seq<nat>, total: Result<LoopOut>,
                             framed': seq<Byte>, lengths': seq<nat>, i': nat, copy': bool)
    requires i + PrefixLength(f) <= |pkt| && NaluLength(f, pkt[i..]) == Ok(n)
    requires total == Prepend(framed, lengths, TransformFrom(f, pkt, write, i, copy))
    requires i' == i + PrefixLength(f) + n
    requires copy' == (copy && !InsertsHere(f, pkt, copy, n))
    requires copy ==> write
    requires write || !f.annexB ==>
               framed' == (if InsertsHere(f, pkt, copy, n) then framed + f.spsPps else framed) + START_CODE + pkt[i + PrefixLength(f)..i']
    requires !(write || !f.annexB) ==> framed' == framed
    requires lengths' == (if InsertsHere(f, pkt, copy, n) then lengths + f.spsPpsLengths else lengths) + [4 + n]
    ensures total == Prepend(framed', lengths', TransformFrom(f, pkt, write, i', copy'))
  {
    var p := PrefixLength(f);
    var insert := InsertsHere(f, pkt, copy, n);
    var ins := if insert then f.spsPps else [];
    var frame := if write || !f.annexB then START_CODE + pkt[i + p..i + p + n] else [];
    var insLengths := if insert then f.spsPpsLengths else [];
    assert framed' == framed + (ins + frame);
    assert lengths' == lengths + (insLengths + [4 + n]);
    TransformFromStep(f, pkt, write, i, copy, n);
    PrependShift(framed, lengths, ins + frame, insLengths + [4 + n], TransformFrom(f, pkt, write, i', copy'),
                 TransformFrom(f, pkt, write, i, copy), total, framed', lengths');
  }

  /** Moving output from the front of the rest onto the accumulated output keeps the total. */
  lemma PrependShift(framed: seq<Byte>, lengths: seq<nat>, bytes: seq<Byte>, unitLengths: seq<nat>,
                     rest: Result<LoopOut>, here: Result<LoopOut>, total: Result<LoopOut>,
                     framed': seq<Byte>, lengths': seq<nat>)
    requires total == Prepend(framed, lengths, here) && here == Prepend(bytes, unitLengths, rest)
    requires framed' == framed + bytes && lengths' == lengths + unitLengths
    ensures total == Prepend(framed', lengths', rest)
  {
    PrependPrepend(framed, lengths, bytes, unitLengths, rest);
  }

  /** Once no prefix fits, the accumulated output is the outcome of the loop. */
  lemma TransformFromDone(f: NaluFormat, pkt: seq<Byte>, write: bool, i: nat, copy: bool,
                          framed: seq<Byte>, lengths: seq<nat>, total: Result<LoopOut>)
    requires i + PrefixLength(f) > |pkt|
    requires total == Prepend(framed, lengths, TransformFrom(f, pkt, write, i, copy))
    ensures total == Ok(LoopOut(framed, lengths, copy, i))
  {
    assert framed + [] == framed && lengths + [] == lengths;
  }

  /** A unit whose length cannot be read ends the loop in an error. */
  lemma TransformFromStops(f: NaluFormat, pkt: seq<Byte>, write: bool, i: nat, copy: bool,
                           framed: seq<Byte>, lengths: seq<nat>, total: Result<LoopOut>, e: HResult)
    requires i + PrefixLength(f) <= |pkt|
    requires NaluLength(f, pkt[i..]) == Err(e)
    requires total == Prepend(framed, lengths, TransformFrom(f, pkt, write, i, copy))
    ensures total == Err(e)
  {
  }

  /** Stamping a start code over the 4-byte prefix of the unit at offset i = |framed| frames that unit. */
  lemma StampedFrame(before: seq<Byte>, after: seq<Byte>, framed: seq<Byte>, pkt: seq<Byte>, i: nat, p: nat, n: nat)
    requires p == 4 && i == |framed| && i + p + n <= |pkt| && before == framed + pkt[i..]
    requires after == before[..i] + START_CODE + before[i + 4..]
    ensures after == framed + START_CODE + pkt[i + p..i + p + n] + pkt[i + p + n..]
  {
    assert before[..i] == framed;
    assert before[i + 4..] == pkt[i + 4..];
    assert pkt[i + 4..] == pkt[i + 4..i + 4 + n] + pkt[i + 4 + n..];
  }


  /** Output whose lengths describe its bytes, put behind output that does the same, still does. */
  lemma PrependKeepsSum(a: seq<Byte>, b: seq<nat>, r: Result<LoopOut>)
    requires r.Ok? && Sum(r.value.lengths) == |r.value.bytes| && Sum(b) == |a|
    ensures Prepend(a, b, r).Ok? && Sum(Prepend(a, b, r).value.lengths) == |Prepend(a, b, r).value.bytes|
  {
    SumAppend(b, r.value.lengths);
  }

  /** The lengths recorded for one unit describe its bytes. */
  lemma UnitLengthsSum(ins: seq<Byte>, insLengths: seq<nat>, frame: seq<Byte>, n: nat)
    requires Sum(insLengths) == |ins| && |frame| == 4 + n
    ensures Sum(insLengths + [4 + n]) == |ins + frame|
  {
    SumAppend(insLengths, [4 + n]);
    assert Sum([4 + n]) == 4 + n + Sum([4 + n][1..]);
  }

  /**
   * The recorded lengths describe the framed bytes exactly, given that the
   * parameter-set lengths describe the parameter-set bytes.
   */
  lemma {:induction false} TransformLengthsDescribeBytes(f: NaluFormat, pkt: seq<Byte>, write: bool, i: nat, copy: bool)
    requires write || !f.annexB
    requires Sum(f.spsPpsLengths) == |f.spsPps|
    requires TransformFrom(f, pkt, write, i, copy).Ok?
    ensures Sum(TransformFrom(f, pkt, write, i, copy).value.lengths) == |TransformFrom(f, pkt, write, i, copy).value.bytes|
    decreases if i <= |pkt| then |pkt| - i else 0
  {
    var p := PrefixLength(f);
    if i + p <= |pkt| {
      var n := NaluLength(f, pkt[i..]).value;
      var insert := InsertsHere(f, pkt, copy, n);
      var ins := if insert then f.spsPps else [];
      var insLengths := if insert then f.spsPpsLengths else [];
      var frame := START_CODE + pkt[i + p..i + p + n];
      var rest := TransformFrom(f, pkt, write, i + p + n, copy && !insert);
      TransformFromStep(f, pkt, write, i, copy, n);
      assert TransformFrom(f, pkt, write, i, copy) == Prepend(ins + frame, insLengths + [4 + n], rest);
      assert rest.Ok?;
      TransformLengthsDescribeBytes(f, pkt, write, i + p + n, copy && !insert);
      UnitLengthsSum(ins, insLengths, frame, n);
      PrependKeepsSum(ins + frame, insLengths + [4 + n], rest);
    }
  }

  /**
   * The parameter sets are inserted at most once: with them pending, the
   * output is the framing without them, longer by their size exactly when
   * they have been inserted.
   */
  lemma {:induction false} TransformInsertsOnce(f: NaluFormat, pkt: seq<Byte>, write: bool, i: nat, copy: bool)
    requires TransformFrom(f, pkt, write, i, copy).Ok?
    ensures TransformFrom(f, pkt, write, i, false).Ok?
    ensures var o := TransformFrom(f, pkt, write, i, copy).value;
            var plain := TransformFrom(f, pkt, write, i, false).value;
            && !plain.copyPending && plain.end == o.end
            && (!copy ==> o == plain)
            && |o.bytes| + (if o.copyPending then |f.spsPps| else 0) == |plain.bytes| + (if copy then |f.spsPps| else 0)
    decreases if i <= |pkt| then |pkt| - i else 0
  {
    var p := PrefixLength(f);
    if i + p <= |pkt| {
      var n := NaluLength(f, pkt[i..]).value;
      var insert := InsertsHere(f, pkt, copy, n);
      TransformFromStep(f, pkt, write, i, copy, n);
      TransformFromStep(f, pkt, write, i, false, n);
      TransformInsertsOnce(f, pkt, write, i + p + n, copy && !insert);
    }
  }

  /** Sum of the sample's lengths equals its size whenever it is written to a new buffer. */
  lemma TransformSampleLengths(f: NaluFormat, pkt: seq<Byte>, isKeyFrame: bool)
    requires Sum(f.spsPpsLengths) == |f.spsPps|
    requires WritesBuffer(f, isKeyFrame) && TransformSpec(f, pkt, isKeyFrame).Ok?
    ensures Sum(TransformSpec(f, pkt, isKeyFrame).value.naluLengths) == |TransformSpec(f, pkt, isKeyFrame).value.buffer|
  {
    var copy := isKeyFrame && f.spsPps != [];
    TransformLengthsDescribeBytes(f, pkt, true, 0, copy);
    var o := TransformFrom(f, pkt, true, 0, copy).value;
    if o.copyPending {
      SumAppend(o.lengths, f.spsPpsLengths);
    }
  }

  /**
   * On a key frame with parameter sets the sample carries them exactly
   * once; otherwise it is the plain framing of the packet's units.
   */
  lemma TransformSampleInsertsOnce(f: NaluFormat, pkt: seq<Byte>, isKeyFrame: bool)
    requires WritesBuffer(f, isKeyFrame) && TransformSpec(f, pkt, isKeyFrame).Ok?
    ensures TransformFrom(f, pkt, true, 0, false).Ok?
    ensures var plain := TransformFrom(f, pkt, true, 0, false).value.bytes;
            |TransformSpec(f, pkt, isKeyFrame).value.buffer| ==
              |plain| + (if isKeyFrame && f.spsPps != [] then |f.spsPps| else 0)
    ensures !(isKeyFrame && f.spsPps != []) ==>
              TransformSpec(f, pkt, isKeyFrame).value.buffer == TransformFrom(f, pkt, true, 0, false).value.bytes
  {
    TransformInsertsOnce(f, pkt, true, 0, isKeyFrame && f.spsPps != []);
  }

  /**
   * What TransformSample's loop keeps: the parameter sets are only pending
   * on a new buffer; the packet is untouched except, in place, where its
   * prefixes before offset i were stamped; and the outcome of the whole loop
   * is the output so far in front of the loop from offset i.
   */
  ghost predicate LoopInvariant(f: NaluFormat, pkt: seq<Byte>, cur: seq<Byte>, write: bool, copy: bool, i: nat,
                                buf: seq<Byte>, framed: seq<Byte>, lengths: seq<nat>, total: Result<LoopOut>)
  {
    && PacketState(f, pkt, cur, write, copy, i, buf, framed)
    && total == Prepend(framed, lengths, TransformFrom(f, pkt, write, i, copy))
  }

  /**
   * Where the output so far lives: in buf when writing a new buffer (the
   * packet untouched), otherwise in the packet itself, whose first i bytes
   * are then the framed units.
   */
  ghost predicate PacketState(f: NaluFormat, pkt: seq<Byte>, cur: seq<Byte>, write: bool, copy: bool, i: nat,
                              buf: seq<Byte>, framed: seq<Byte>)
  {
    && (copy ==> write)
    && (write ==> cur == pkt && framed == buf)
    && (!write && f.annexB ==> cur == pkt)
    && (!write && !f.annexB ==> |framed| == i <= |pkt| && cur == framed + pkt[i..])
  }

  /** The packet is unchanged from offset i on. */
  lemma LoopInvariantRest(f: NaluFormat, pkt: seq<Byte>, cur: seq<Byte>, write: bool, copy: bool, i: nat,
                          buf: seq<Byte>, framed: seq<Byte>, lengths: seq<nat>, total: Result<LoopOut>)
    requires LoopInvariant(f, pkt, cur, write, copy, i, buf, framed, lengths, total)
    requires i <= |pkt|
    ensures cur[i..] == pkt[i..]
  {
    if !write && !f.annexB {
      assert cur[i..] == (framed + pkt[i..])[|framed|..];
    }
  }

  lemma PrependNothing(r: Result<LoopOut>)
    ensures Prepend([], [], r) == r
  {
    if r.Ok? {
      assert [] + r.value.bytes == r.value.bytes && [] + r.value.lengths == r.value.lengths;
    }
  }

  /** Overwrites the four bytes at offset i with a start code. */
  method StampStartCode(packet: array<Byte>, i: nat)
    requires i + 4 <= packet.Length
    modifies packet
    ensures packet[..] == old(packet[..])[..i] + START_CODE + old(packet[..])[i + 4..]
  {
    packet[i] := 0;
    packet[i + 1] := 0;
    packet[i + 2] := 0;
    packet[i + 3] := 1;
  }

  class NaluSampleProvider {
    var isBitstreamAnnexB: bool
    var naluLengthSize: nat
    var spsPpsData: seq<Byte>
    var spsPpsNaluLengths: seq<nat>

    /** A provider starts out in Annex B mode with no parameter sets. */
    constructor ()
      ensures isBitstreamAnnexB && naluLengthSize == 0 && spsPpsData == [] && spsPpsNaluLengths == []
    {
      isBitstreamAnnexB := true;
      naluLengthSize := 0;
      spsPpsData := [];
      spsPpsNaluLengths := [];
    }

    function Format(): NaluFormat
      reads this
    {
      NaluFormat(isBitstreamAnnexB, naluLengthSize, spsPpsData, spsPpsNaluLengths)
    }

    /** The length of the next NAL unit, in the provider's bitstream format. */
    method NextNaluLength(data: seq<Byte>) returns (r: Result<nat>)
      ensures r == NaluLength(Format(), data)
    {
      if isBitstreamAnnexB {
        var unit := GetAnnexBNaluLength(data);
        r := if unit.Ok? then Ok(unit.value - 4) else unit;
      } else {
        r := GetAvcNaluLength(data, naluLengthSize);
      }
    }

    /**
     * The body of TransformSample's loop for the unit of n bytes behind the
     * prefix at offset i: the parameter sets go in front of it when they are
     * still to be copied and the sample does not begin with an AUD; then the
     * unit is appended to the buffer behind a start code, or, in place, its
     * length prefix is overwritten by a start code.
     */
    method TransformNalu(packet: array<Byte>, i: nat, p: nat, n: nat, write: bool, copy: bool,
                         buf: seq<Byte>, lengths: seq<nat>,
                         ghost f: NaluFormat, ghost pkt: seq<Byte>, ghost framed: seq<Byte>)
      returns (copy': bool, buf': seq<Byte>, lengths': seq<nat>, ghost framed': seq<Byte>, next: nat)
      requires f == Format() && p == PrefixLength(f) && |pkt| == packet.Length
      requires write || f.annexB || f.lengthSize == 4
      requires i + p + n <= |pkt|
      requires PacketState(f, pkt, packet[..], write, copy, i, buf, framed)
      modifies packet
      ensures next == i + p + n
      ensures copy' == (copy && !InsertsHere(f, pkt, copy, n))
      ensures lengths' == (if InsertsHere(f, pkt, copy, n) then lengths + f.spsPpsLengths else lengths) + [4 + n]
      ensures write || !f.annexB ==>
                framed' == (if InsertsHere(f, pkt, copy, n) then framed + f.spsPps else framed) + START_CODE + pkt[i + p..next]
      ensures !(write || !f.annexB) ==> framed' == framed
      ensures PacketState(f, pkt, packet[..], write, copy', next, buf', framed')
    {
      copy', buf', lengths', framed' := copy, buf, lengths, framed;
      if copy {
        assert packet[..] == pkt;
        if n < p || p >= packet.Length || packet[p] != NALU_TYPE_AUD {
          buf' := buf' + spsPpsData;
          framed' := framed' + spsPpsData;
          lengths' := lengths' + spsPpsNaluLengths;
          copy' := false;
        }
      }
      next := i + p + n;
      if write {
        assert packet[i + p..next] == pkt[i + p..next];
        buf' := buf' + START_CODE + packet[i + p..next];
        framed' := framed' + START_CODE + pkt[i + p..next];
      } else if !isBitstreamAnnexB {
        ghost var before := packet[..];
        StampStartCode(packet, i);
        StampedFrame(before, packet[..], framed, pkt, i, p, n);
        framed' := framed' + START_CODE + pkt[i + p..next];
      }
      lengths' := lengths' + [4 + n];
    }

    /**
     * One round of the TransformSample loop: reads the next unit's length
     * and frames that unit, or reports the error that ends the sample.
     */
    method TransformStep(packet: array<Byte>, i: nat, p: nat, write: bool, copy: bool,
                         buf: seq<Byte>, lengths: seq<nat>,
                         ghost f: NaluFormat, ghost pkt: seq<Byte>, ghost framed: seq<Byte>, ghost total: Result<LoopOut>)
      returns (err: Option<HResult>, copy': bool, buf': seq<Byte>, lengths': seq<nat>, ghost framed': seq<Byte>, next: nat)
      requires f == Format() && p == PrefixLength(f) && |pkt| == packet.Length
      requires write || f.annexB || f.lengthSize == 4
      requires i + p <= packet.Length
      requires LoopInvariant(f, pkt, packet[..], write, copy, i, buf, framed, lengths, total)
      modifies packet
      ensures err.Some? ==> total == Err(err.value)
      ensures err.None? ==> i < next && LoopInvariant(f, pkt, packet[..], write, copy', next, buf', framed', lengths', total)
    {
      copy', buf', lengths', framed', next := copy, buf, lengths, framed, i;
      LoopInvariantRest(f, pkt, packet[..], write, copy, i, buf, framed, lengths, total);
      var found := NextNaluLength(packet[i..]);
      if found.Err? {
        TransformFromStops(f, pkt, write, i, copy, framed, lengths, total, found.error);
        return Some(found.error), copy', buf', lengths', framed', next;
      }
      var n := found.value;
      copy', buf', lengths', framed', next := TransformNalu(packet, i, p, n, write, copy, buf, lengths, f, pkt, framed);
      TransformFromAdvance(f, pkt, write, i, copy, n, framed, lengths, total, framed', lengths', next, copy');
      err := None;
    }

    /**
     * Rewrites a sample into start-code format: a new buffer when
     * WritesBuffer holds, otherwise the packet itself, with its 4-byte
     * length prefixes overwritten by start codes when it is length-prefixed.
     */
    method TransformSample(packet: array<Byte>, isKeyFrame: bool) returns (r: Result<TransformedSample>)
      modifies packet
      ensures r == TransformSpec(Format(), old(packet[..]), isKeyFrame)
      ensures r.Ok? && !WritesBuffer(Format(), isKeyFrame) ==> packet[..] == r.value.buffer
    {
      ghost var f := Format();
      ghost var pkt := packet[..];
      var copy := isKeyFrame && spsPpsData != [];
      var write := copy || (!isBitstreamAnnexB && naluLengthSize != 4);
      var p := if isBitstreamAnnexB then 4 else naluLengthSize;
      var buf: seq<Byte> := [];
      ghost var framed: seq<Byte> := [];
      var lengths: seq<nat> := [];
      var i: nat := 0;
      ghost var total := TransformFrom(f, pkt, write, 0, copy);
      assert total == TransformFrom(f, pkt, WritesBuffer(f, isKeyFrame), 0, isKeyFrame && f.spsPps != []);
      PrependNothing(total);
      while i + p <= packet.Length
        invariant LoopInvariant(f, pkt, packet[..], write, copy, i, buf, framed, lengths, total)
        decreases if i <= |pkt| then |pkt| - i else 0
      {
        var err;
        err, copy, buf, lengths, framed, i := TransformStep(packet, i, p, write, copy, buf, lengths, f, pkt, framed, total);
        if err.Some? {
          return Err(err.value);
        }
      }
      TransformFromDone(f, pkt, write, i, copy, framed, lengths, total);
      if copy {
        buf := buf + spsPpsData;
        lengths := lengths + spsPpsNaluLengths;
      }
      if write {
        return Ok(TransformedSample(buf, lengths));
      }
      return Ok(TransformedSample(packet[..], lengths));
    }
  }
}
