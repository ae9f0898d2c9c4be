// BitstreamReader: a most-significant-bit-first reader over a byte buffer,
// with the Exp-Golomb readers of ITU-T H.264 sections 9.1 and 9.1.1.
//
// The reader's cursor is the pair (byteIndex, bitIndex); the model also views
// it as one bit position 8 * byteIndex + bitIndex into the buffer's bits.

module BitstreamReading {
  import opened Common

  type Bit = x: nat | x < 2

  /** x >> s. */
  function Shr(x: nat, s: nat): nat
    decreases s
  {
    if s == 0 then x else Shr(x / 2, s - 1)
  }

  /** x << s. */
  function Shl(x: nat, s: nat): nat
    decreases s
  {
    if s == 0 then x else Shl(2 * x, s - 1)
  }

  /** x & ((1 << r) - 1): the r low bits of x. */
  function Mask(x: nat, r: nat): nat
    decreases r
  {
    if r == 0 then 0 else 2 * Mask(x / 2, r - 1) + x % 2
  }

  /** Bit j of byte b, counting from the most significant bit (j = 0). */
  function BitOf(b: Byte, j: nat): Bit
    requires j < 8
  {
    Shr(b, 7 - j) % 2
  }

  /** Bit k of a buffer, each byte read most significant bit first. */
  function BitAt(data: seq<Byte>, k: nat): Bit
    requires k < 8 * |data|
    decreases k
  {
    if k < 8 then BitOf(data[0], k) else BitAt(data[1..], k - 8)
  }

  /** Bit j of byte i is bit 8 * i + j of the buffer. */
  lemma {:induction false} BitAtByte(data: seq<Byte>, i: nat, j: nat)
    requires i < |data| && j < 8
    ensures BitAt(data, 8 * i + j) == BitOf(data[i], j)
  {
    if i > 0 {
      BitAtByte(data[1..], i - 1, j);
    }
  }

  /** The buffer as a bit string. */
  function Bits(data: seq<Byte>): (bits: seq<Bit>)
    ensures |bits| == 8 * |data|
  {
    seq(8 * |data|, k requires 0 <= k < 8 * |data| => BitAt(data, k))
  }

  /**
   * bits is the bit string of data. The trigger keeps the bits of the buffer
   * out of proofs that only talk about the bit string.
   */
  ghost predicate BitsOf(data: seq<Byte>, bits: seq<Bit>)
  {
    && |bits| == 8 * |data|
    && forall k {:trigger BitAt(data, k)} :: 0 <= k < |bits| ==> bits[k] == BitAt(data, k)
  }

  /** Bits(data) is the one bit string of data. */
  lemma BitsOfUnique(data: seq<Byte>, bits: seq<Bit>)
    ensures BitsOf(data, bits) <==> bits == Bits(data)
  {
    if BitsOf(data, bits) {
      forall k | 0 <= k < |bits|
        ensures bits[k] == Bits(data)[k]
      {
        assert bits[k] == BitAt(data, k);
      }
    }
    if bits == Bits(data) {
      forall k | 0 <= k < |bits|
        ensures bits[k] == BitAt(data, k)
      {
      }
    }
  }

  /** The unsigned value of bits[lo..hi], first bit most significant. */
  function ValueOf(bits: seq<Bit>, lo: nat, hi: nat): nat
    requires lo <= hi <= |bits|
    decreases hi
  {
    if lo == hi then 0 else 2 * ValueOf(bits, lo, hi - 1) + bits[hi - 1]
  }

  // ---------------------------------------------------------------------
  // Relating the byte-wise reads to ValueOf.

  lemma {:induction false} ShlDouble(x: nat, k: nat)
    ensures 2 * Shl(x, k) == Shl(2 * x, k)
    decreases k
  {
    if k > 0 {
      ShlDouble(2 * x, k - 1);
    }
  }

  lemma {:induction false} ShrSucc(x: nat, s: nat)
    ensures Shr(x, s + 1) == Shr(x, s) / 2
    decreases s
  {
    if s > 0 {
      ShrSucc(x / 2, s - 1);
    }
  }

  lemma {:induction false} MaskSmall(x: nat, k: nat)
    requires x < Pow2(k)
    ensures Mask(x, k) == x
  {
    if k > 0 {
      MaskSmall(x / 2, k - 1);
    }
  }

  lemma {:induction false} ValueOfBound(bits: seq<Bit>, lo: nat, hi: nat)
    requires lo <= hi <= |bits|
    ensures ValueOf(bits, lo, hi) < Pow2(hi - lo)
    decreases hi
  {
    if hi > lo {
      ValueOfBound(bits, lo, hi - 1);
    }
  }

  /** Reading [lo, mid) and then [mid, mid + r): the first value shifted left by r plus the second. */
  lemma {:induction false} ValueOfAppend(bits: seq<Bit>, lo: nat, mid: nat, r: nat)
    requires lo <= mid && mid + r <= |bits|
    ensures ValueOf(bits, lo, mid + r) == Shl(ValueOf(bits, lo, mid), r) + ValueOf(bits, mid, mid + r)
  {
    if r > 0 {
      ValueOfAppend(bits, lo, mid, r - 1);
      ShlDouble(ValueOf(bits, lo, mid), r - 1);
    }
  }

  /**
   * The r bits of byte i that start at bit a (bit position here) are the
   * value the library extracts with a shift and a mask.
   */
  lemma {:induction false} ChunkValue(data: seq<Byte>, bits: seq<Bit>, here: nat, i: nat, a: nat, r: nat)
    requires BitsOf(data, bits)
    requires i < |data| && a + r <= 8 && here == 8 * i + a
    ensures ValueOf(bits, here, here + r) == Mask(Shr(data[i], 8 - a - r), r)
  {
    if r > 0 {
      var x := Shr(data[i], 8 - a - r);
      assert bits[here + r - 1] == x % 2 by {
        BitAtByte(data, i, a + r - 1);
      }
      assert ValueOf(bits, here, here + r - 1) == Mask(x / 2, r - 1) by {
        ChunkValue(data, bits, here, i, a, r - 1);
        ShrSucc(data[i], 8 - a - r);
      }
    }
  }

  // ---------------------------------------------------------------------
  // Exp-Golomb codes (ITU-T H.264 section 9.1).

  /**
   * Outcome of reading ue(v) at bit position p once k leading zero bits have
   * been consumed: the code number and the position after the code, or the
   * error the reader throws. The reader gives up after 32 leading zeros.
   */
  function UExpGolombFrom(bits: seq<Bit>, p: nat, k: nat): Result<(nat, nat)>
    requires k <= 32
    decreases 32 - k
  {
    if p + k >= |bits| then Err(MfEInvalidPosition)
    else if bits[p + k] == 1 then
      if p + 2 * k + 1 > |bits| then Err(MfEInvalidPosition)
      else Ok((Pow2(k) - 1 + ValueOf(bits, p + k + 1, p + 2 * k + 1), p + 2 * k + 1))
    else if k + 1 > 32 then Err(MfEInvalidFileFormat)
    else UExpGolombFrom(bits, p, k + 1)
  }

  /** ue(v) read at bit position p. */
  function UExpGolombAt(bits: seq<Bit>, p: nat): Result<(nat, nat)>
  {
    UExpGolombFrom(bits, p, 0)
  }

  /** Zero bits from p on: reading ue(v) at p continues as after them. */
  lemma {:induction false} UExpGolombSkip(bits: seq<Bit>, p: nat, k: nat)
    requires k <= 32 && p + k <= |bits|
    requires forall i :: p <= i < p + k ==> bits[i] == 0
    ensures UExpGolombAt(bits, p) == UExpGolombFrom(bits, p, k)
  {
    if k > 0 {
      UExpGolombSkip(bits, p, k - 1);
    }
  }

  /** se(v) from its code number (ITU-T H.264 section 9.1.1, Table 9-3). */
  function SignedOfCode(c: nat): int
  {
    if c % 2 == 0 then -(c / 2) else c / 2 + 1
  }

  /** The code number of a signed value, the inverse of SignedOfCode. */
  function CodeOfSigned(v: int): nat
  {
    if v > 0 then 2 * v - 1 else -2 * v
  }

  lemma SignedOfCodeRoundTrip(c: nat)
    ensures CodeOfSigned(SignedOfCode(c)) == c
  {
    if c % 2 == 0 {
      assert SignedOfCode(c) == -(c / 2);
    } else {
      assert SignedOfCode(c) == c / 2 + 1;
    }
  }

  lemma CodeOfSignedRoundTrip(v: int)
    ensures SignedOfCode(CodeOfSigned(v)) == v
  {
    if v > 0 {
      var c := 2 * v - 1;
      assert c % 2 == 1 && c / 2 == v - 1;
    } else {
      var c := -2 * v;
      assert c % 2 == 0 && c / 2 == -v;
    }
  }

  /** floor(log2(x)). */
  function Log2(x: nat): nat
    requires x >= 1
  {
    if x == 1 then 0 else 1 + Log2(x / 2)
  }

  lemma {:induction false} Log2Bounds(x: nat)
    requires x >= 1
    ensures Pow2(Log2(x)) <= x < Pow2(Log2(x) + 1)
  {
    if x > 1 {
      Log2Bounds(x / 2);
    }
  }

  lemma {:induction false} Log2Below(x: nat, n: nat)
    requires 1 <= x < Pow2(n)
    ensures Log2(x) < n
  {
    if x > 1 {
      Log2Below(x / 2, n - 1);
    }
  }

  /** A code number below 2^33 - 1 has at most 32 leading zero bits. */
  lemma Log2Below33(x: nat)
    requires 1 <= x < 2 * UINT32_MODULUS
    ensures Log2(x) <= 32
  {
    Pow2Of32();
    Log2Below(x, 33);
  }

  /** The k low bits of x, most significant first. */
  function NatBits(x: nat, k: nat): (s: seq<Bit>)
    ensures |s| == k
  {
    if k == 0 then [] else NatBits(x / 2, k - 1) + [x % 2]
  }

  /** Wherever NatBits(x, k) sits in a bit string, it reads back as x's k low bits. */
  lemma {:induction false} NatBitsValue(pre: seq<Bit>, x: nat, k: nat, rest: seq<Bit>)
    ensures ValueOf(pre + NatBits(x, k) + rest, |pre|, |pre| + k) == Mask(x, k)
  {
    if k > 0 {
      var s := pre + NatBits(x, k) + rest;
      assert s == pre + NatBits(x / 2, k - 1) + ([x % 2] + rest);
      NatBitsValue(pre, x / 2, k - 1, [x % 2] + rest);
      assert s[|pre| + k - 1] == x % 2;
    }
  }

  function Zeros(k: nat): (s: seq<Bit>)
    ensures |s| == k
  {
    if k == 0 then [] else Zeros(k - 1) + [0]
  }

  lemma {:induction false} ZerosAreZero(k: nat, i: nat)
    requires i < k
    ensures Zeros(k)[i] == 0
  {
    if i < k - 1 {
      ZerosAreZero(k - 1, i);
    }
  }

  /** ue(v) encoding of v (ITU-T H.264 section 9.1): k zeros, a one, then k info bits. */
  function UExpGolombEncode(v: nat): seq<Bit>
  {
    var k := Log2(v + 1);
    Log2Bounds(v + 1);
    Zeros(k) + [1] + NatBits(v + 1 - Pow2(k), k)
  }

  /** k zero bits, a one bit and k info bits worth x: ue(v) reads 2^k - 1 + x. */
  lemma UExpGolombOfPrefix(bits: seq<Bit>, k: nat, x: nat)
    requires k <= 32 && 2 * k + 1 <= |bits|
    requires forall i :: 0 <= i < k ==> bits[i] == 0
    requires bits[k] == 1 && ValueOf(bits, k + 1, 2 * k + 1) == x
    ensures UExpGolombAt(bits, 0) == Ok((Pow2(k) - 1 + x, 2 * k + 1))
  {
    UExpGolombSkip(bits, 0, k);
  }

  /** k zeros, a one and k info bits x decode to 2^k - 1 + x, whatever follows them. */
  lemma UExpGolombDecodes(k: nat, x: nat, rest: seq<Bit>)
    requires k <= 32 && x < Pow2(k)
    ensures UExpGolombAt(Zeros(k) + [1] + NatBits(x, k) + rest, 0) == Ok((Pow2(k) - 1 + x, 2 * k + 1))
  {
    var pre := Zeros(k) + [1];
    var bits := pre + NatBits(x, k) + rest;
    forall i | 0 <= i < k
      ensures bits[i] == 0
    {
      ZerosAreZero(k, i);
    }
    assert bits[k] == 1;
    assert ValueOf(bits, k + 1, 2 * k + 1) == x by {
      NatBitsValue(pre, x, k, rest);
      MaskSmall(x, k);
    }
    UExpGolombOfPrefix(bits, k, x);
  }

  /** Decoding an encoded code number gives it back, whatever follows it. */
  lemma UExpGolombRoundTrip(v: nat, rest: seq<Bit>)
    requires v + 1 < 2 * UINT32_MODULUS
    ensures UExpGolombAt(UExpGolombEncode(v) + rest, 0) == Ok((v, |UExpGolombEncode(v)|))
  {
    var k, x := UExpGolombEncodeParts(v);
    UExpGolombDecodes(k, x, rest);
  }

  /** The code of v: k zeros, a one and k info bits worth x, with 2^k - 1 + x == v. */
  lemma UExpGolombEncodeParts(v: nat) returns (k: nat, x: nat)
    requires v + 1 < 2 * UINT32_MODULUS
    ensures k <= 32 && x < Pow2(k) && Pow2(k) - 1 + x == v
    ensures UExpGolombEncode(v) == Zeros(k) + [1] + NatBits(x, k) && |UExpGolombEncode(v)| == 2 * k + 1
  {
    k := Log2(v + 1);
    Log2Below33(v + 1);
    assert Pow2(k) <= v + 1 < 2 * Pow2(k) by {
      Log2Bounds(v + 1);
    }
    x := v + 1 - Pow2(k);
  }

  // ---------------------------------------------------------------------
  // SkipN's index update: as the library writes it, and corrected.

  /**
   * SkipN's cursor update as written: whole bytes go to the byte index, the
   * remaining bits are added to the bit index, and only a bit index of
   * exactly 8 is carried into the byte index.
   */
  function SkipIndicesAsWritten(byteIndex: nat, bitIndex: nat, n: nat): (r: (nat, nat))
    ensures 8 * r.0 + r.1 == 8 * byteIndex + bitIndex + n
  {
    var b, t := byteIndex + n / 8, bitIndex + n % 8;
    if t == 8 then (b + 1, 0) else (b, t)
  }

  /**
   * From bit 5 of a byte, skipping 4 bits leaves a bit index of 9, outside
   * the range [0, 8) the reader's fields are declared with; the next ReadN
   * then shifts by a negative amount.
   */
  lemma SkipAsWrittenLeavesBitIndexOutOfRange()
    ensures SkipIndicesAsWritten(0, 5, 4) == (0, 9)
  {
  }

  /** SkipN's cursor update with every bit index of 8 or more carried. */
  function SkipIndices(byteIndex: nat, bitIndex: nat, n: nat): (r: (nat, nat))
    requires bitIndex < 8
    ensures r.1 < 8
    ensures 8 * r.0 + r.1 == 8 * byteIndex + bitIndex + n
  {
    var b, t := byteIndex + n / 8, bitIndex + n % 8;
    if t >= 8 then (b + 1, t - 8) else (b, t)
  }

  /** The number of zero bits from position p up to the next one bit, if any. */
  function ZerosBefore(bits: seq<Bit>, p: nat): Option<nat>
    decreases |bits| - p
  {
    if p >= |bits| then None
    else if bits[p] == 1 then Some(0)
    else match ZerosBefore(bits, p + 1)
      case None => None
      case Some(z) => Some(z + 1)
  }

  /** Zeros counted from p equal the zeros skipped so far plus those counted from p + total. */
  lemma {:induction false} ZerosBeforeShift(bits: seq<Bit>, p: nat, total: nat)
    requires p + total <= |bits|
    requires forall i :: p <= i < p + total ==> bits[i] == 0
    ensures ZerosBefore(bits, p).Some? <==> ZerosBefore(bits, p + total).Some?
    ensures ZerosBefore(bits, p).Some? ==> ZerosBefore(bits, p).value == total + ZerosBefore(bits, p + total).value
    decreases total
  {
    if total > 0 {
      ZerosBeforeShift(bits, p + 1, total - 1);
    }
  }

  class BitstreamReader {
    const data: seq<Byte>
    /** The buffer as a bit string: what the reader's contracts are stated over. */
    ghost const bits: seq<Bit>
    var byteIndex: nat
    var bitIndex: nat

    ghost predicate Valid()
      reads this
    {
      bitIndex < 8 && 8 * byteIndex + bitIndex <= 8 * |data| && BitsOf(data, bits)
    }

    /** The cursor as a bit position into the buffer. */
    ghost function Position(): nat
      reads this
    {
      8 * byteIndex + bitIndex
    }

    constructor (buffer: seq<Byte>)
      ensures Valid() && data == buffer && bits == Bits(buffer) && byteIndex == 0 && bitIndex == 0
    {
      data := buffer;
      bits := Bits(buffer);
      byteIndex := 0;
      bitIndex := 0;
      new;
      BitsOfUnique(buffer, Bits(buffer));
    }

    /** The constructor's null check: a missing buffer is E_INVALIDARG. */
    static method Create(buffer: Option<seq<Byte>>) returns (r: Result<BitstreamReader>)
      ensures buffer.None? <==> r == Err(EInvalidArg)
      ensures r.Ok? ==>
                && fresh(r.value) && r.value.Valid() && r.value.Position() == 0
                && r.value.data == buffer.value && r.value.bits == Bits(buffer.value)
    {
      if buffer.None? {
        return Err(EInvalidArg);
      }
      var reader := new BitstreamReader(buffer.value);
      return Ok(reader);
    }

    function BitsRemaining(): (r: nat)
      reads this
      requires Valid()
      ensures r == 8 * |data| - Position()
      ensures byteIndex >= |data| ==> r == 0
    {
      if |data| > byteIndex then 8 * (|data| - byteIndex) - bitIndex else 0
    }

    method SkipN(n: nat) returns (hr: HResult)
      requires Valid()
      modifies this
      ensures Valid()
      ensures hr == (if n > old(BitsRemaining()) then MfEInvalidPosition else SOk)
      ensures hr == SOk ==> Position() == old(Position()) + n && BitsRemaining() == old(BitsRemaining()) - n
      ensures hr != SOk ==> byteIndex == old(byteIndex) && bitIndex == old(bitIndex)
    {
      if n > BitsRemaining() {
        return MfEInvalidPosition;
      }
      var next := SkipIndices(byteIndex, bitIndex, n);
      byteIndex, bitIndex := next.0, next.1;
      return SOk;
    }

    /**
     * One pass of ReadN's loop: reads the bits left in the current byte, or
     * fewer when fewer remain to be read, with a shift and a mask, and shifts
     * them into the accumulated result.
     */
    method ReadChunk(remaining: nat, ghost start: nat, result: nat) returns (readSize: nat, next: nat)
      requires Valid() && 0 < remaining && start <= Position() && Position() + remaining <= 8 * |data|
      requires result == ValueOf(bits, start, Position())
      modifies this
      ensures Valid()
      ensures 0 < readSize <= remaining && Position() == old(Position()) + readSize
      ensures next == ValueOf(bits, start, Position())
    {
      readSize := if remaining < 8 - bitIndex then remaining else 8 - bitIndex;
      var chunk := Mask(Shr(data[byteIndex], 8 - bitIndex - readSize), readSize);
      ghost var here := Position();
      assert chunk == ValueOf(bits, here, here + readSize) by {
        ChunkValue(data, bits, here, byteIndex, bitIndex, readSize);
      }
      next := Shl(result, readSize) + chunk;
      assert next == ValueOf(bits, start, here + readSize) by {
        ValueOfAppend(bits, start, here, readSize);
      }
      bitIndex := bitIndex + readSize;
      if bitIndex == 8 {
        byteIndex := byteIndex + 1;
        bitIndex := 0;
      }
    }

    /**
     * Reads n <= 32 bits, most significant first. The library shifts the
     * accumulated result left by readSize and ORs in the masked chunk; as the
     * chunk is below 2^readSize the OR is an addition.
     */
    method ReadN(n: nat) returns (r: Result<nat>)
      requires Valid() && n <= 32
      modifies this
      ensures Valid()
      ensures n > old(BitsRemaining()) ==>
                r == Err(MfEInvalidPosition) && byteIndex == old(byteIndex) && bitIndex == old(bitIndex)
      ensures n <= old(BitsRemaining()) ==>
                r == Ok(ValueOf(bits, old(Position()), old(Position()) + n)) && Position() == old(Position()) + n
      ensures r.Ok? ==> r.value < Pow2(n)
    {
      if n > BitsRemaining() {
        return Err(MfEInvalidPosition);
      }
      ghost var start := Position();
      var remaining: nat := n;
      var result := 0;
      while remaining > 0
        invariant Valid()
        invariant Position() + remaining == start + n <= 8 * |data|
        invariant result == ValueOf(bits, start, Position())
        decreases remaining
      {
        var readSize;
        readSize, result := ReadChunk(remaining, start, result);
        remaining := remaining - readSize;
      }
      ValueOfBound(bits, start, start + n);
      return Ok(result);
    }

    /** Read1: one bit as a flag. */
    method Read1() returns (r: Result<bool>)
      requires Valid()
      modifies this
      ensures Valid()
      ensures old(Position()) < 8 * |data| <==> r.Ok?
      ensures r.Ok? ==> r.value == (bits[old(Position())] == 1) && Position() == old(Position()) + 1
      ensures r.Err? ==> r.error == MfEInvalidPosition
    {
      var v := ReadN(1);
      if v.Err? {
        return Err(v.error);
      }
      return Ok(v.value != 0);
    }

    /** Read8, Read16 and Read32: n bits as an unsigned value of that width. */
    method ReadBits(n: nat) returns (r: Result<nat>)
      requires Valid() && (n == 8 || n == 16 || n == 32)
      modifies this
      ensures Valid()
      ensures old(Position()) + n <= 8 * |data| <==> r.Ok?
      ensures r.Ok? ==> r.value == ValueOf(bits, old(Position()), old(Position()) + n) && Position() == old(Position()) + n
      ensures r.Err? ==> r.error == MfEInvalidPosition
    {
      r := ReadN(n);
    }

    /**
     * The prefix loop of ReadUExpGolomb: reads bits up to and including the
     * first one bit, failing once more than 32 zero bits have been read.
     */
    method ReadLeadingZeros() returns (r: Result<nat>)
      requires Valid()
      modifies this
      ensures Valid() && old(Position()) <= Position()
      ensures r.Err? ==> UExpGolombAt(bits, old(Position())) == Err(r.error)
      ensures r.Ok? ==> && r.value <= 32 && Position() == old(Position()) + r.value + 1
                        && bits[old(Position()) + r.value] == 1
                        && UExpGolombAt(bits, old(Position())) == UExpGolombFrom(bits, old(Position()), r.value)
    {
      ghost var p := Position();
      var zeros: nat := 0;
      while true
        invariant Valid() && zeros <= 32 && Position() == p + zeros
        invariant forall i :: p <= i < p + zeros ==> bits[i] == 0
        decreases 32 - zeros
      {
        var bit := ReadN(1);
        if bit.Err? {
          UExpGolombSkip(bits, p, zeros);
          return Err(bit.error);
        }
        if bit.value == 1 {
          break;
        }
        if zeros + 1 > 32 {
          UExpGolombSkip(bits, p, zeros);
          return Err(MfEInvalidFileFormat);
        }
        zeros := zeros + 1;
      }
      UExpGolombSkip(bits, p, zeros);
      return Ok(zeros);
    }

    /** Reads ue(v): the leading zero bits, then as many info bits. */
    method ReadUExpGolomb() returns (r: Result<nat>)
      requires Valid()
      modifies this
      ensures Valid() && old(Position()) <= Position()
      ensures UExpGolombAt(bits, old(Position())) == if r.Ok? then Ok((r.value, Position())) else Err(r.error)
    {
      var zeros := ReadLeadingZeros();
      if zeros.Err? {
        return Err(zeros.error);
      }
      var info := ReadN(zeros.value);
      if info.Err? {
        return Err(info.error);
      }
      return Ok(Pow2(zeros.value) - 1 + info.value);
    }

    /** Reads se(v): the ue(v) code number mapped by SignedOfCode. */
    method ReadSExpGolomb() returns (r: Result<int>)
      requires Valid()
      modifies this
      ensures Valid() && old(Position()) <= Position()
      ensures UExpGolombAt(bits, old(Position()))
                == if r.Ok? then Ok((CodeOfSigned(r.value), Position())) else Err(r.error)
    {
      var code := ReadUExpGolomb();
      if code.Err? {
        return Err(code.error);
      }
      SignedOfCodeRoundTrip(code.value);
      if code.value % 2 == 0 {
        return Ok(-(code.value / 2));
      } else {
        return Ok(code.value / 2 + 1);
      }
    }

    /**
     * The prefix loop of SkipExpGolomb: reads bits up to and including the
     * next one bit, counting the zero bits in an 8-bit counter, which wraps.
     */
    method CountLeadingZeros() returns (r: Result<nat>)
      requires Valid()
      modifies this
      ensures Valid() && old(Position()) <= Position()
      ensures ZerosBefore(bits, old(Position())).None? <==> r.Err?
      ensures r.Err? ==> r.error == MfEInvalidPosition
      ensures r.Ok? ==> && r.value == ZerosBefore(bits, old(Position())).value % 256
                        && Position() == old(Position()) + ZerosBefore(bits, old(Position())).value + 1
    {
      ghost var p := Position();
      ghost var total: nat := 0;
      var zeros := 0;
      while true
        invariant Valid() && Position() == p + total && zeros == total % 256
        invariant forall i :: p <= i < p + total ==> bits[i] == 0
        decreases 8 * |data| - Position()
      {
        var bit := ReadN(1);
        if bit.Err? {
          ZerosBeforeShift(bits, p, total);
          return Err(bit.error);
        }
        if bit.value == 1 {
          break;
        }
        zeros := (zeros + 1) % 256;
        total := total + 1;
      }
      ZerosBeforeShift(bits, p, total);
      return Ok(zeros);
    }

    /**
     * Skips an Exp-Golomb code: counts the zero bits before the next one bit
     * in an 8-bit counter, then skips as many bits as the counter holds.
     */
    method SkipExpGolomb() returns (hr: HResult)
      requires Valid()
      modifies this
      ensures Valid() && old(Position()) <= Position()
      ensures var z := ZerosBefore(bits, old(Position()));
              && (z.None? ==> hr == MfEInvalidPosition)
              && (z.Some? ==> hr == (if old(Position()) + z.value + 1 + z.value % 256 > 8 * |data|
                                     then MfEInvalidPosition else SOk))
              && (hr == SOk ==> Position() == old(Position()) + z.value + 1 + z.value % 256)
    {
      var zeros := CountLeadingZeros();
      if zeros.Err? {
        return zeros.error;
      }
      hr := SkipN(zeros.value);
    }
  }
}
