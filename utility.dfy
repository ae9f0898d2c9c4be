// Small helpers of the newer library build: the ordering that lets a GUID
// key a std::map, the translation of FFmpeg error codes into HRESULTs, and
// the two owners of FFmpeg image and sample buffers, whose data pointers
// and sizes are meant to be set together.

module Utility {
  import opened Common

  // ---------------------------------------------------------------------
  // less<GUID>

  /** A GUID read as four 32-bit unsigned words, in memory order. */
  datatype Guid = Guid(w0: nat, w1: nat, w2: nat, w3: nat)

  function Words(g: Guid): seq<nat>
  {
    [g.w0, g.w1, g.w2, g.w3]
  }

  /** Lexicographic order on word sequences of equal length: the reference ordering. */
  predicate LexLess(a: seq<nat>, b: seq<nat>)
    requires |a| == |b|
  {
    a != [] && (a[0] < b[0] || (a[0] == b[0] && LexLess(a[1..], b[1..])))
  }

  /** less<GUID>: the first word that differs decides; equal GUIDs are not less. */
  predicate GuidLess(lhs: Guid, rhs: Guid)
  {
    if lhs.w0 != rhs.w0 then lhs.w0 < rhs.w0
    else if lhs.w1 != rhs.w1 then lhs.w1 < rhs.w1
    else if lhs.w2 != rhs.w2 then lhs.w2 < rhs.w2
    else if lhs.w3 != rhs.w3 then lhs.w3 < rhs.w3
    else false
  }

  /** The comparator is the lexicographic order on the four words. */
  lemma GuidLessIsLexicographic(lhs: Guid, rhs: Guid)
    ensures GuidLess(lhs, rhs) == LexLess(Words(lhs), Words(rhs))
  {
    var a, b := Words(lhs), Words(rhs);
    var a1, b1 := [lhs.w1, lhs.w2, lhs.w3], [rhs.w1, rhs.w2, rhs.w3];
    var a2, b2 := [lhs.w2, lhs.w3], [rhs.w2, rhs.w3];
    var a3, b3 := [lhs.w3], [rhs.w3];
    assert a[1..] == a1 && b[1..] == b1;
    assert a1[1..] == a2 && b1[1..] == b2;
    assert a2[1..] == a3 && b2[1..] == b3;
    assert a3[1..] == [] && b3[1..] == [];
    assert LexLess(a3, b3) == (lhs.w3 < rhs.w3);
    assert LexLess(a2, b2) == (lhs.w2 < rhs.w2 || (lhs.w2 == rhs.w2 && LexLess(a3, b3)));
    assert LexLess(a1, b1) == (lhs.w1 < rhs.w1 || (lhs.w1 == rhs.w1 && LexLess(a2, b2)));
  }

  /**
   * The comparator is a strict total order, as std::map requires of its
   * key comparison: irreflexive, transitive, and any two distinct GUIDs are
   * ordered one way.
   */
  lemma GuidLessIsStrictTotalOrder(a: Guid, b: Guid, c: Guid)
    ensures !GuidLess(a, a)
    ensures GuidLess(a, b) && GuidLess(b, c) ==> GuidLess(a, c)
    ensures GuidLess(a, b) ==> !GuidLess(b, a)
    ensures a != b <==> GuidLess(a, b) || GuidLess(b, a)
  {
  }

  // ---------------------------------------------------------------------
  // averror_to_hresult

  /** AVERROR(EINVAL). */
  const AVERROR_EINVAL: AvError := -22
  /** AVERROR(ENOMEM). */
  const AVERROR_ENOMEM: AvError := -12
  /** AVERROR_BUFFER_TOO_SMALL, FFERRTAG('B', 'U', 'F', 'S'). */
  const AVERROR_BUFFER_TOO_SMALL: AvError := -0x5346_5542

  /** The four mapped codes keep their meaning; every other code becomes E_FAIL. */
  function AverrorToHresult(result: AvError): (hr: HResult)
    ensures result == AVERROR_EINVAL ==> hr == EInvalidArg
    ensures result == AVERROR_ENOMEM ==> hr == EOutOfMemory
    ensures result == AVERROR_BUFFER_TOO_SMALL ==> hr == MfEBufferTooSmall
    ensures result == AVERROR_EOF ==> hr == MfEEndOfStream
    ensures result !in {AVERROR_EINVAL, AVERROR_ENOMEM, AVERROR_BUFFER_TOO_SMALL, AVERROR_EOF} ==> hr == EFail
  {
    if result == AVERROR_EINVAL then EInvalidArg
    else if result == AVERROR_ENOMEM then EOutOfMemory
    else if result == AVERROR_BUFFER_TOO_SMALL then MfEBufferTooSmall
    else if result == AVERROR_EOF then MfEEndOfStream
    else EFail
  }

  /** A translated error is always a failure, and distinct mapped codes stay distinct. */
  lemma AverrorToHresultFails(a: AvError, b: AvError)
    ensures AverrorToHresult(a) != SOk
    ensures AverrorToHresult(a) == AverrorToHresult(b) && AverrorToHresult(a) != EFail ==> a == b
  {
  }

  /** THROW_IF_FFMPEG_FAILED: a negative result throws its translation; anything else passes. */
  function FfmpegCheck(result: int): (r: Option<HResult>)
    ensures r.Some? <==> result < 0
    ensures r.Some? ==> r.value != SOk
  {
    if result < 0 then Some(AverrorToHresult(result)) else None
  }

  // ---------------------------------------------------------------------
  // AVImage and AVSamples

  /** A pointer: null, or a buffer. */
  datatype Ptr = Null | Buffer(id: nat)

  /** The owner of an image allocated by av_image_alloc: four plane pointers and their line sizes. */
  class AVImage {
    var data: seq<Ptr>
    var lineSizes: seq<int>

    /** The state of an image with no buffer. */
    predicate Empty()
      reads this
    {
      data == [Null, Null, Null, Null] && lineSizes == [-1, -1, -1, -1]
    }

    constructor()
      ensures Empty()
    {
      data := [Null, Null, Null, Null];
      lineSizes := [-1, -1, -1, -1];
    }

    /** Reset: the buffer is freed and the image is empty again. */
    method Reset()
      modifies this
      ensures Empty()
    {
      data := [Null, Null, Null, Null];
      lineSizes := [-1, -1, -1, -1];
    }

    /**
     * The move assignment: the plane pointers are swapped and the line sizes
     * copied, so this image holds the other's buffer and line sizes, and the
     * other takes this image's old pointers with its own line sizes.
     */
    method MoveAssign(other: AVImage)
      modifies this, other
      ensures other != this ==> data == old(other.data) && lineSizes == old(other.lineSizes)
      ensures other != this ==> other.data == old(data) && other.lineSizes == old(other.lineSizes)
      ensures other == this ==> data == old(data) && lineSizes == old(lineSizes)
    {
      if this != other {
        var d := data;
        data := other.data;
        other.data := d;
        lineSizes := other.lineSizes;
      }
    }
  }

  /** The owner of a sample buffer allocated by av_samples_alloc: its pointer and size. */
  class AVSamples {
    var data: Ptr
    var size: int

    /** The pointer and the size are set together: no buffer exactly when the size is -1. */
    predicate Consistent()
      reads this
    {
      (data == Null) == (size == -1)
    }

    constructor()
      ensures data == Null && size == -1 && Consistent()
    {
      data := Null;
      size := -1;
    }

    /** Reset: the buffer is freed; the size goes back to -1. */
    method Reset()
      modifies this
      ensures data == Null && size == -1 && Consistent()
    {
      data := Null;
      size := -1;
    }

    /** The move assignment as written: the pointers are swapped, the sizes are not. */
    method MoveAssignAsWritten(other: AVSamples)
      modifies this, other
      ensures other != this ==> data == old(other.data) && other.data == old(data)
      ensures size == old(size) && other.size == old(other.size)
    {
      if this != other {
        var d := data;
        data := other.data;
        other.data := d;
      }
    }

    /** The move assignment with the sizes swapped along with the pointers. */
    method MoveAssign(other: AVSamples)
      modifies this, other
      ensures other != this ==> data == old(other.data) && size == old(other.size)
      ensures other != this ==> other.data == old(data) && other.size == old(size)
      ensures old(Consistent()) && old(other.Consistent()) ==> Consistent() && other.Consistent()
    {
      if this != other {
        data, other.data := other.data, data;
        size, other.size := other.size, size;
      }
    }
  }

  /**
   * As written, moving a sample buffer into an empty owner leaves the owner
   * with the buffer and the size -1 that means "no buffer".
   */
  method MoveIntoEmptyAsWritten() returns (target: AVSamples)
    ensures target.data == Buffer(1) && target.size == -1 && !target.Consistent()
  {
    var source := new AVSamples();
    source.data, source.size := Buffer(1), 1024;
    target := new AVSamples();
    target.MoveAssignAsWritten(source);
  }
}
